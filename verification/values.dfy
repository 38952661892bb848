/** Scalar cell and property values, their Python `str()` text, and the
    error/optional wrappers shared by the other modules. */
module Values {

  datatype Option<+T> = None | Some(value: T)

  /** The failures the modelled bookkeeping can raise. */
  datatype Error =
    | MissingColumn(name: string)   // pandas KeyError on a column label that is absent

  datatype Result<+T> = Ok(value: T) | Err(error: Error) {
    predicate IsFailure() { Err? }

    function PropagateFailure<U>(): Result<U>
      requires Err?
    {
      Err(error)
    }

    function Extract(): T
      requires Ok?
    {
      value
    }
  }

  /** A scalar as it sits in a table cell or a GeoJSON property.
      Floats and timestamps carry their text as given: in a report cell the
      text `astype(str)` gives the column (for a datetime column of midnight
      values `YYYY-MM-DD`), in a GeoJSON property the text the file holds.
      Float and date formatting are not part of this model. */
  datatype Value =
    | Int(i: int)
    | Float(text: string)
    | Str(s: string)
    | Bool(b: bool)
    | Null
    | Timestamp(text: string)

  predicate IsDigit(c: char) { '0' <= c <= '9' }

  function DigitChar(d: nat): (c: char)
    requires d < 10
    ensures IsDigit(c) && c as int - '0' as int == d
  {
    ('0' as int + d) as char
  }

  /** Decimal digits of `n`, most significant first, without leading zeros. */
  function NatToText(n: nat): (r: string)
    ensures |r| >= 1
    ensures forall k | 0 <= k < |r| :: IsDigit(r[k])
    ensures |r| > 1 ==> r[0] != '0'
    decreases n
  {
    if n < 10 then [DigitChar(n)] else NatToText(n / 10) + [DigitChar(n % 10)]
  }

  /** The number a string of decimal digits denotes (the reading direction). */
  function DecimalValue(s: string): nat
    requires forall k | 0 <= k < |s| :: IsDigit(s[k])
  {
    if s == [] then 0
    else
      assert IsDigit(s[|s| - 1]);
      DecimalValue(s[..|s| - 1]) * 10 + (s[|s| - 1] as int - '0' as int)
  }

  lemma {:induction false} NatToTextRoundTrip(n: nat)
    ensures DecimalValue(NatToText(n)) == n
    decreases n
  {
    if n >= 10 {
      var r := NatToText(n);
      assert r[..|r| - 1] == NatToText(n / 10);
      NatToTextRoundTrip(n / 10);
    }
  }

  /** Python's `str()` of an int. */
  function IntToText(i: int): string
  {
    if i < 0 then "-" + NatToText(-i) else NatToText(i)
  }

  /** Python's `str()` of a value: strings are returned as they are, booleans
      print as `True`/`False`, JSON null (`None`) as `None`. */
  function ToStr(v: Value): (r: string)
    ensures v.Str? ==> r == v.s
    ensures v.Int? ==> (v.i < 0 <==> |r| > 0 && r[0] == '-')
  {
    match v
    case Int(i) => IntToText(i)
    case Float(text) => text
    case Str(s) => s
    case Bool(b) => if b then "True" else "False"
    case Null => "None"
    case Timestamp(text) => text
  }

  /** Reads back the text `str()` gives an int: an optional minus sign, then digits. */
  function ParseInt(s: string): int
    requires |s| > 0
    requires s[0] == '-' || IsDigit(s[0])
    requires forall k | 1 <= k < |s| :: IsDigit(s[k])
  {
    if s[0] == '-' then -(DecimalValue(s[1..]) as int) else DecimalValue(s)
  }

  /** `str()` of an int reads back as the same int. */
  lemma IntToTextRoundTrip(i: int)
    ensures var r := IntToText(i);
      |r| > 0 && (r[0] == '-' || IsDigit(r[0])) && (forall k | 1 <= k < |r| :: IsDigit(r[k]))
      && ParseInt(r) == i
  {
    var r := IntToText(i);
    if i < 0 {
      assert r[1..] == NatToText(-i);
      NatToTextRoundTrip(-i);
    } else {
      NatToTextRoundTrip(i);
    }
  }
}
