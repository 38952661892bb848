/** File-name bookkeeping of both pipelines: the POSIX `os.path` helpers the
    script calls (basename, dirname, splitext, join), the date token cut from
    the input's stem, and the names of the files each pipeline writes. */
module Paths {

  /** Index of the last `c` in `s`, or -1 when there is none (`str.rfind`). */
  function LastIndexOf(s: string, c: char): (k: int)
    ensures -1 <= k < |s|
    ensures k >= 0 ==> s[k] == c
    ensures forall j | k < j < |s| :: s[j] != c
    decreases |s|
  {
    if |s| == 0 then -1
    else if s[|s| - 1] == c then |s| - 1
    else LastIndexOf(s[..|s| - 1], c)
  }

  /** When `a` ends in `c` and `b` holds no `c`, the last `c` of `a + b` is the end of `a`. */
  lemma LastIndexAtJoint(a: string, b: string, c: char)
    requires |a| > 0 && a[|a| - 1] == c && c !in b
    ensures LastIndexOf(a + b, c) == |a| - 1
  {
    var s := a + b;
    assert s[|a| - 1] == c;
    assert forall j | |a| <= j < |s| :: s[j] == b[j - |a|];
  }

  /** `os.path.basename`: everything after the last `/`. */
  function Basename(p: string): (r: string)
    ensures '/' !in r
    ensures |r| <= |p| && r == p[|p| - |r|..]
    ensures |r| == |p| || p[|p| - |r| - 1] == '/'
  {
    p[LastIndexOf(p, '/') + 1..]
  }

  predicate AllSlashes(s: string) { forall k | 0 <= k < |s| :: s[k] == '/' }

  /** `str.rstrip('/')`. */
  function StripTrailingSlashes(s: string): (r: string)
    ensures |r| <= |s| && r == s[..|r|]
    ensures r == [] || r[|r| - 1] != '/'
    ensures AllSlashes(s[|r|..])
    decreases |s|
  {
    if |s| > 0 && s[|s| - 1] == '/' then
      var t := s[..|s| - 1];
      var r := StripTrailingSlashes(t);
      assert s[..|r|] == t[..|r|];
      assert s[|r|..] == t[|r|..] + ['/'];
      r
    else
      s
  }

  /** `os.path.dirname`: everything up to the last `/`, with trailing slashes
      removed unless that part is made of slashes only. */
  function Dirname(p: string): string
  {
    var head := p[..LastIndexOf(p, '/') + 1];
    if head != [] && !AllSlashes(head) then StripTrailingSlashes(head) else head
  }

  /** A directory part is empty, made of slashes only, or ends in a non-slash. */
  predicate DirShape(d: string)
  {
    d == [] || AllSlashes(d) || d[|d| - 1] != '/'
  }

  lemma DirnameShape(p: string)
    ensures DirShape(Dirname(p))
  {
    var head := p[..LastIndexOf(p, '/') + 1];
    if head != [] && !AllSlashes(head) {
      var r := StripTrailingSlashes(head);
      assert r != [] by { assert head[0..] == head; }
    }
  }

  /** `os.path.join(a, b)` for two parts. */
  function Join(a: string, b: string): string
  {
    if |b| > 0 && b[0] == '/' then b
    else if a == [] || a[|a| - 1] == '/' then a + b
    else a + "/" + b
  }

  /** A file joined onto a directory keeps its own name. */
  lemma BasenameOfJoin(d: string, n: string)
    requires '/' !in n
    ensures Basename(Join(d, n)) == n
  {
    if d == [] {
      assert Join(d, n) == n;
    } else if d[|d| - 1] == '/' {
      LastIndexAtJoint(d, n, '/');
    } else {
      LastIndexAtJoint(d + "/", n, '/');
      assert d + "/" + n == (d + "/") + n;
    }
  }

  /** A file joined onto a directory of the shape `Dirname` returns lies in
      that same directory. */
  lemma {:induction false} DirnameOfJoin(d: string, n: string)
    requires DirShape(d) && '/' !in n
    ensures Dirname(Join(d, n)) == d
  {
    if d == [] {
      assert Join(d, n) == n;
      assert LastIndexOf(n, '/') == -1;
    } else if d[|d| - 1] == '/' {
      LastIndexAtJoint(d, n, '/');
      assert (d + n)[..|d|] == d;
    } else {
      var s := d + "/";
      LastIndexAtJoint(s, n, '/');
      assert d + "/" + n == s + n;
      assert (s + n)[..|s|] == s;
      assert !AllSlashes(s) by { assert s[|d| - 1] != '/'; }
      var r := StripTrailingSlashes(s);
      assert s[..|s| - 1] == d;
      assert r == StripTrailingSlashes(d);
      assert StripTrailingSlashes(d) == d;
    }
  }

  /** The input file's output files land beside it. */
  lemma OutputBesideInput(input: string, name: string)
    requires '/' !in name
    ensures Dirname(Join(Dirname(input), name)) == Dirname(input)
    ensures Basename(Join(Dirname(input), name)) == name
  {
    DirnameShape(input);
    DirnameOfJoin(Dirname(input), name);
    BasenameOfJoin(Dirname(input), name);
  }

  /** An extension: empty, or one dot followed by neither a dot nor a `/`. */
  predicate ExtShape(e: string)
  {
    e == [] || (e[0] == '.' && forall j | 1 <= j < |e| :: e[j] != '.' && e[j] != '/')
  }

  predicate AllDots(s: string) { forall k | 0 <= k < |s| :: s[k] == '.' }

  /** `os.path.splitext` (POSIX): the extension starts at the last `.` of the
      last path component, provided some character before that dot in the
      component is not a dot; otherwise there is no extension. */
  function SplitExt(p: string): (r: (string, string))
    ensures r.0 + r.1 == p
    ensures ExtShape(r.1)
  {
    var sep := LastIndexOf(p, '/');
    var dot := LastIndexOf(p, '.');
    if dot > sep && !AllDots(p[sep + 1..dot]) then
      SplitAt(p, sep, dot)
    else
      assert p + [] == p;
      (p, [])
  }

  /** The split at the dot found by `SplitExt`. */
  function SplitAt(p: string, sep: int, dot: int): (r: (string, string))
    requires -1 <= sep < dot < |p| && p[dot] == '.'
    requires forall j | dot < j < |p| :: p[j] != '.'
    requires forall j | sep < j < |p| :: p[j] != '/'
    ensures r.0 + r.1 == p && |r.0| == dot
    ensures ExtShape(r.1)
  {
    assert p[..dot] + p[dot..] == p;
    (p[..dot], p[dot..])
  }

  /** Which names have an extension: there is none exactly when every dot of
      the last path component has only dots before it in that component, and
      otherwise the extension runs from the last dot to the end. */
  lemma {:induction false} SplitExtFacts(p: string)
    ensures var sep := LastIndexOf(p, '/');
      SplitExt(p).1 == [] <==> forall j | sep < j < |p| && p[j] == '.' :: AllDots(p[sep + 1..j])
    ensures SplitExt(p).1 != [] ==> SplitExt(p).1 == p[LastIndexOf(p, '.')..]
  {
    var sep := LastIndexOf(p, '/');
    var dot := LastIndexOf(p, '.');
    if dot <= sep {
      assert SplitExt(p) == (p, []);
      assert forall j | sep < j < |p| :: p[j] != '.';
    } else if AllDots(p[sep + 1..dot]) {
      assert SplitExt(p) == (p, []);
      DotsBeforeLastDot(p, sep, dot);
    } else {
      assert SplitExt(p) == SplitAt(p, sep, dot) == (p[..dot], p[dot..]);
      assert p[dot] == '.' && !AllDots(p[sep + 1..dot]);
    }
  }

  /** When only dots precede the last dot of a component, only dots precede
      every dot of it. */
  lemma DotsBeforeLastDot(p: string, sep: int, dot: int)
    requires -1 <= sep < dot < |p| && AllDots(p[sep + 1..dot])
    requires forall j | dot < j < |p| :: p[j] != '.'
    ensures forall j | sep < j < |p| && p[j] == '.' :: AllDots(p[sep + 1..j])
  {
    forall j | sep < j < |p| && p[j] == '.'
      ensures AllDots(p[sep + 1..j])
    {
      assert p[sep + 1..j] == p[sep + 1..dot][..j - sep - 1];
    }
  }

  /** The file name without directory and extension. */
  function Stem(path: string): (stem: string)
    ensures '/' !in stem
    ensures Basename(path) == stem + SplitExt(Basename(path)).1
  {
    var b := Basename(path);
    var parts := SplitExt(b);
    assert forall j | 0 <= j < |parts.0| :: parts.0[j] == b[j];
    parts.0
  }

  /** `stem.split('_')[-1]`: the part after the last underscore. */
  function DateToken(stem: string): (token: string)
    ensures '_' !in token
    ensures '_' !in stem ==> token == stem
    ensures '_' in stem ==> exists head :: stem == head + "_" + token
    ensures forall c :: c in token ==> c in stem
  {
    var k := LastIndexOf(stem, '_');
    if k >= 0 then
      assert stem == stem[..k] + "_" + stem[k + 1..];
      stem[k + 1..]
    else
      stem
  }

  /** The date token of the file at `path`. */
  function DateTokenOf(path: string): (token: string)
    ensures '_' !in token && '/' !in token
  {
    DateToken(Stem(path))
  }

  const ExcelPointsPrefix := "pile_location_as_install_"
  const BufferPrefix := "as_installed_pinpile_"
  const CsvPrefix := "pinpile_center_"
  const GeoJsonExt := ".geojson"
  const XlsxExt := ".xlsx"
  const CsvExt := ".csv"

  /** An output file name: fixed prefix, the date token verbatim, fixed extension. */
  function OutputName(prefix: string, token: string, ext: string): (name: string)
    ensures |name| == |prefix| + |token| + |ext|
    ensures name[..|prefix|] == prefix
    ensures name[|prefix|..|prefix| + |token|] == token
    ensures name[|prefix| + |token|..] == ext
  {
    prefix + token + ext
  }

  /** Prefix and extension shapes for which the date token can be read back. */
  predicate TokenFriendly(prefix: string, ext: string)
  {
    |prefix| > 0 && prefix[0] != '.' && prefix[|prefix| - 1] == '_' && '/' !in prefix
    && |ext| > 1 && ext[0] == '.' && '.' !in ext[1..] && '/' !in ext && '_' !in ext
  }

  lemma NoCharInOutputName(prefix: string, token: string, ext: string, c: char)
    requires c !in prefix && c !in token && c !in ext
    ensures c !in OutputName(prefix, token, ext)
  {
  }

  /** Naming an output after a date token and then reading the token of that
      output gives the token back. */
  lemma OutputNameRoundTrip(prefix: string, token: string, ext: string)
    requires TokenFriendly(prefix, ext)
    requires '_' !in token && '/' !in token
    ensures Basename(OutputName(prefix, token, ext)) == OutputName(prefix, token, ext)
    ensures Stem(OutputName(prefix, token, ext)) == prefix + token
    ensures DateTokenOf(OutputName(prefix, token, ext)) == token
  {
    var name := OutputName(prefix, token, ext);
    NoCharInOutputName(prefix, token, ext, '/');
    assert Basename(name) == name;
    StemOfOutputName(prefix, token, ext);
    LastIndexAtJoint(prefix, token, '_');
  }

  lemma StemOfOutputName(prefix: string, token: string, ext: string)
    requires TokenFriendly(prefix, ext)
    requires '/' !in token
    ensures SplitExt(OutputName(prefix, token, ext)).0 == prefix + token
  {
    var name := OutputName(prefix, token, ext);
    NoCharInOutputName(prefix, token, ext, '/');
    var stem := prefix + token;
    assert name == (stem + ".") + ext[1..];
    LastIndexAtJoint(stem + ".", ext[1..], '.');
    var dot := LastIndexOf(name, '.');
    assert dot == |stem|;
    assert name[..dot] == stem;
    assert !AllDots(name[0..dot]) by { assert name[0] == prefix[0]; }
  }

  /** The output names of both pipelines, after lines 36, 59, 110 and 129. */
  function ExcelPointsName(token: string): string { OutputName(ExcelPointsPrefix, token, GeoJsonExt) }
  function ExcelBufferName(token: string): string { OutputName(BufferPrefix, token, GeoJsonExt) }
  function CsvPointsName(token: string): string { OutputName(CsvPrefix, token, GeoJsonExt) }
  function CsvReportName(token: string): string { OutputName(CsvPrefix, token, XlsxExt) }

  lemma OutputShapesTokenFriendly()
    ensures TokenFriendly(ExcelPointsPrefix, GeoJsonExt)
    ensures TokenFriendly(BufferPrefix, GeoJsonExt)
    ensures TokenFriendly(CsvPrefix, GeoJsonExt)
    ensures TokenFriendly(CsvPrefix, XlsxExt)
  {
  }

  /** Every output name carries the token it was made from. */
  lemma OutputNamesRoundTrip(token: string)
    requires '_' !in token && '/' !in token
    ensures DateTokenOf(ExcelPointsName(token)) == token
    ensures DateTokenOf(ExcelBufferName(token)) == token
    ensures DateTokenOf(CsvPointsName(token)) == token
    ensures DateTokenOf(CsvReportName(token)) == token
  {
    OutputShapesTokenFriendly();
    OutputNameRoundTrip(ExcelPointsPrefix, token, GeoJsonExt);
    OutputNameRoundTrip(BufferPrefix, token, GeoJsonExt);
    OutputNameRoundTrip(CsvPrefix, token, GeoJsonExt);
    OutputNameRoundTrip(CsvPrefix, token, XlsxExt);
  }
}
