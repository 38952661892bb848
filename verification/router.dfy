/** `main`: picking the input files of the working directory by their names,
    running the spreadsheet pipeline before the CSV one, and stopping the run
    at the first pipeline that raises. */
module Router {
  import opened Paths

  predicate StartsWith(s: string, prefix: string)
  {
    |prefix| <= |s| && s[..|prefix|] == prefix
  }

  predicate EndsWith(s: string, suffix: string)
  {
    |suffix| <= |s| && s[|s| - |suffix|..] == suffix
  }

  /** A spreadsheet of pile locations as installed. */
  predicate IsExcelInput(name: string)
  {
    StartsWith(name, ExcelPointsPrefix) && EndsWith(name, XlsxExt)
  }

  /** A CSV table of pin-pile centres. */
  predicate IsCsvInput(name: string)
  {
    StartsWith(name, CsvPrefix) && EndsWith(name, CsvExt)
  }

  /** `[f for f in listing if keep(f)]`. */
  function Filter(listing: seq<string>, keep: string -> bool): (r: seq<string>)
    ensures forall f :: f in r <==> f in listing && keep(f)
    ensures |r| <= |listing|
  {
    if listing == [] then []
    else if keep(listing[0]) then [listing[0]] + Filter(listing[1..], keep)
    else Filter(listing[1..], keep)
  }

  /** The first listed entry satisfying `keep`. */
  predicate FirstKept(listing: seq<string>, keep: string -> bool, i: int)
  {
    0 <= i < |listing| && keep(listing[i]) && forall j | 0 <= j < i :: !keep(listing[j])
  }

  /** The first name the filter keeps is the first kept name of the listing. */
  lemma {:induction false} FilterFirst(listing: seq<string>, keep: string -> bool)
    requires Filter(listing, keep) != []
    ensures exists i :: FirstKept(listing, keep, i) && Filter(listing, keep)[0] == listing[i]
  {
    if keep(listing[0]) {
      assert FirstKept(listing, keep, 0);
    } else {
      var rest := listing[1..];
      FilterFirst(rest, keep);
      var i :| FirstKept(rest, keep, i) && Filter(rest, keep)[0] == rest[i];
      assert listing[i + 1] == rest[i];
      assert forall j | 1 <= j <= i :: listing[j] == rest[j - 1];
      assert FirstKept(listing, keep, i + 1);
    }
  }

  /** A pipeline run on one input file. */
  datatype Job = ProcessExcel(path: string) | ProcessCsv(path: string)

  /** The runs `main` starts, in order, for the directory `cwd` whose entries
      `listing` holds in the order the directory listing returns them. */
  function Dispatch(cwd: string, listing: seq<string>): (jobs: seq<Job>)
  {
    var excel := Filter(listing, IsExcelInput);
    var csv := Filter(listing, IsCsvInput);
    (if excel != [] then [ProcessExcel(Join(cwd, excel[0]))] else [])
    + (if csv != [] then [ProcessCsv(Join(cwd, csv[0]))] else [])
  }

  /** One spreadsheet run when a spreadsheet input is listed and one CSV run
      when a CSV input is listed, and no other run; the spreadsheet run, when
      there is one, comes first and is on the first listed spreadsheet input,
      and the CSV run comes last and is on the first listed CSV input. */
  lemma DispatchFacts(cwd: string, listing: seq<string>)
    ensures var jobs := Dispatch(cwd, listing);
      && |jobs| == (if exists f | f in listing :: IsExcelInput(f) then 1 else 0)
                 + (if exists f | f in listing :: IsCsvInput(f) then 1 else 0)
      && ((exists f | f in listing :: IsExcelInput(f)) <==> |jobs| > 0 && jobs[0].ProcessExcel?)
      && ((exists f | f in listing :: IsCsvInput(f)) <==> |jobs| > 0 && jobs[|jobs| - 1].ProcessCsv?)
      && (|jobs| > 0 && jobs[0].ProcessExcel? ==>
            exists i | FirstKept(listing, IsExcelInput, i) :: jobs[0].path == Join(cwd, listing[i]))
      && (|jobs| > 0 && jobs[|jobs| - 1].ProcessCsv? ==>
            exists i | FirstKept(listing, IsCsvInput, i) :: jobs[|jobs| - 1].path == Join(cwd, listing[i]))
  {
    var excel := Filter(listing, IsExcelInput);
    var csv := Filter(listing, IsCsvInput);
    if excel != [] {
      assert excel[0] in excel;
      FilterFirst(listing, IsExcelInput);
    }
    if csv != [] {
      assert csv[0] in csv;
      FilterFirst(listing, IsCsvInput);
    }
  }

  /** A GeoJSON file name ends in neither input extension. */
  lemma GeoJsonIsNotInput(n: string)
    requires |n| >= |GeoJsonExt| && n[|n| - |GeoJsonExt|..] == GeoJsonExt
    ensures !EndsWith(n, XlsxExt) && !EndsWith(n, CsvExt)
  {
    assert n[|n| - 1] == GeoJsonExt[|GeoJsonExt| - 1] == 'n';
  }

  /** A name with the CSV input prefix lacks the spreadsheet input prefix. */
  lemma CsvPrefixIsNotExcelPrefix(n: string)
    requires StartsWith(n, CsvPrefix)
    ensures !StartsWith(n, ExcelPointsPrefix)
  {
    assert n[2] == CsvPrefix[2] == 'n';
  }

  /** A `.xlsx` name does not end in `.csv`. */
  lemma XlsxIsNotCsv(n: string)
    requires EndsWith(n, XlsxExt)
    ensures !EndsWith(n, CsvExt)
  {
    assert n[|n| - 1] == XlsxExt[|XlsxExt| - 1] == 'x';
  }

  /** None of the files a run creates is taken as an input by a later run.
      The spreadsheet report is written into the input workbook itself, which
      stays an input; it is not one of these files. */
  lemma OutputsAreNotInputs(token: string)
    ensures !IsExcelInput(ExcelPointsName(token)) && !IsCsvInput(ExcelPointsName(token))
    ensures !IsExcelInput(ExcelBufferName(token)) && !IsCsvInput(ExcelBufferName(token))
    ensures !IsExcelInput(CsvPointsName(token)) && !IsCsvInput(CsvPointsName(token))
    ensures !IsExcelInput(CsvReportName(token)) && !IsCsvInput(CsvReportName(token))
  {
    GeoJsonIsNotInput(ExcelPointsName(token));
    GeoJsonIsNotInput(ExcelBufferName(token));
    GeoJsonIsNotInput(CsvPointsName(token));
    var r := CsvReportName(token);
    assert StartsWith(r, CsvPrefix);
    assert EndsWith(r, XlsxExt);
    CsvPrefixIsNotExcelPrefix(r);
    XlsxIsNotCsv(r);
  }

  /** The `try` around both runs: runs start in order, and a run that raises
      ends the whole sequence, so the later runs never start. `raises` tells
      which runs raise. */
  function Started(jobs: seq<Job>, raises: Job -> bool): (started: seq<Job>)
    ensures started <= jobs
    ensures forall k | 0 <= k < |started| - 1 :: !raises(started[k])
    ensures |started| < |jobs| ==> |started| > 0 && raises(started[|started| - 1])
  {
    if jobs == [] then []
    else if raises(jobs[0]) then [jobs[0]]
    else [jobs[0]] + Started(jobs[1..], raises)
  }
}
