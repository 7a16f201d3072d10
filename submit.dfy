/** util/submit.py: the submission table that maps image names to run-length encodings. */
module Submit {
  import opened Wrappers
  import opened Strings
  import opened Paths
  import opened Dicts

  /** A CSV file as the reader yields it: one list of fields per line. */
  type Table = seq<seq<string>>

  /** The table files on disk, by path. */
  type TableFiles = map<string, Table>

  /** The column names of the submission table. */
  const Header: seq<string> := ["img", "rle_mask"]

  /** The extension the table adds to every image name. */
  const ImgExt := ".jpg"

  const SubmissionFileName := "submission.csv"

  /** `get_pred_dir`: the saved-predictions directory of an experiment under the output root. */
  function GetPredDir(outputDir: string, expName: string, savedPredsDirName: string): (r: string)
    ensures savedPredsDirName != [] && '/' !in savedPredsDirName ==> Basename(r) == savedPredsDirName
  {
    var r := Join(Join(outputDir, expName), savedPredsDirName);
    assert savedPredsDirName != [] && '/' !in savedPredsDirName ==> Basename(r) == savedPredsDirName by {
      if savedPredsDirName != [] && '/' !in savedPredsDirName {
        BasenameOfJoin(Join(outputDir, expName), savedPredsDirName);
      }
    }
    r
  }

  /** With plain relative names, the prediction directory is root, experiment and directory
      name, in that order, separated by '/'. */
  lemma GetPredDirLayout(outputDir: string, expName: string, savedPredsDirName: string)
    requires outputDir != [] && outputDir[|outputDir| - 1] != '/'
    requires expName != [] && '/' !in expName
    requires savedPredsDirName == [] || savedPredsDirName[0] != '/'
    ensures GetPredDir(outputDir, expName, savedPredsDirName) ==
      outputDir + "/" + expName + "/" + savedPredsDirName
  {
    assert expName[0] != '/' by { assert expName[0] in expName; }
    assert Join(outputDir, expName) == outputDir + "/" + expName;
  }

  /** Where `save_predictions` writes and `load_predictions` reads an experiment's table. */
  function SubmissionPath(outputDir: string, expName: string): (r: string)
    ensures Join(outputDir, expName) <= r
  {
    Join(Join(outputDir, expName), SubmissionFileName)
  }

  /** The table file is named `submission.csv`, whatever the directory. */
  lemma SubmissionPathBasename(outputDir: string, expName: string)
    ensures Basename(SubmissionPath(outputDir, expName)) == SubmissionFileName
  {
    assert '/' !in SubmissionFileName;
    BasenameOfJoin(Join(outputDir, expName), SubmissionFileName);
  }

  /** The rows `save_predictions` writes: the header, then one row per entry, in the
      dictionary's order, holding the name with ".jpg" appended and the encoding as it is. */
  function PredictionRows(preds: Dict): (rows: Table)
    ensures |rows| == |preds| + 1 && rows[0] == Header
    ensures forall i :: 0 <= i < |preds| ==> rows[i + 1] == [preds[i].0 + ImgExt, preds[i].1]
  {
    if preds == [] then [Header]
    else
      var n := |preds| - 1;
      PredictionRows(preds[..n]) + [[preds[n].0 + ImgExt, preds[n].1]]
  }

  /** `save_predictions`: writes the table of `preds` to the experiment's submission file and
      touches no other file. */
  function SavePredictions(files: TableFiles, outputDir: string, expName: string, preds: Dict)
    : (r: TableFiles)
    ensures r.Keys == files.Keys + {SubmissionPath(outputDir, expName)}
    ensures r[SubmissionPath(outputDir, expName)] == PredictionRows(preds)
    ensures forall p :: p in files && p != SubmissionPath(outputDir, expName) ==> r[p] == files[p]
  {
    files[SubmissionPath(outputDir, expName) := PredictionRows(preds)]
  }

  /** `remove_extension`: the file name without its extension. */
  function RemoveExtension(filename: string): (r: string)
    ensures r <= filename
    ensures r == filename || IsExtension(filename[|r|..])
  {
    SplitExt(filename).0
  }

  /** Removing the extension undoes appending ".jpg" exactly when the last component of the
      name holds a character other than '.'; a name such as "" or ".." is not recovered. */
  lemma RemoveExtensionOfImgExt(x: string)
    ensures RemoveExtension(x + ImgExt) == x <==> HasStem(x)
  {
    var p := x + ImgExt;
    SplitExtIff(p, ImgExt);
    assert p[..|p| - |ImgExt|] == x;
    if RemoveExtension(p) == x {
      assert SplitExt(p).1 == p[|x|..] == ImgExt;
    }
    if HasStem(x) {
      SplitExtOfAppended(x, ImgExt);
    }
  }

  /** The checks `load_predictions` makes of the first row, in order: the first field exists
      and is the first header name, then the second field exists and is the second. */
  function CheckHeader(row: seq<string>): (r: Outcome)
    ensures r.Pass? <==> |row| >= 2 && row[0] == Header[0] && row[1] == Header[1]
  {
    if |row| == 0 then Fail(IndexError)
    else if row[0] != Header[0] then Fail(AssertionError)
    else if |row| == 1 then Fail(IndexError)
    else if row[1] != Header[1] then Fail(AssertionError)
    else Pass
  }

  /** The entry a data row contributes: its name without extension, and its encoding. */
  function RowEntry(row: seq<string>): (string, string)
    requires |row| >= 2
  {
    (RemoveExtension(row[0]), row[1])
  }

  function RowEntries(rows: Table): (r: seq<(string, string)>)
    requires forall i :: 0 <= i < |rows| ==> |rows[i]| >= 2
    ensures |r| == |rows| && forall i :: 0 <= i < |rows| ==> r[i] == RowEntry(rows[i])
  {
    if rows == [] then []
    else
      var n := |rows| - 1;
      RowEntries(rows[..n]) + [RowEntry(rows[n])]
  }

  /** What `load_predictions` makes of a table: nothing from an empty file; otherwise the
      header must pass, every later row must have two fields, and the rows' entries are
      assigned into a dictionary in order. */
  function ParsePredictions(rows: Table): (r: Result<Dict>)
    ensures r.Ok? <==>
      rows == [] || (CheckHeader(rows[0]).Pass? && forall i :: 1 <= i < |rows| ==> |rows[i]| >= 2)
    ensures r.Err? ==> r.error == IndexError || r.error == AssertionError
    ensures r.Ok? ==> DistinctKeys(r.value) && (rows != [] ==> |r.value| <= |rows| - 1)
  {
    if rows == [] then Ok([])
    else if CheckHeader(rows[0]).Fail? then Err(CheckHeader(rows[0]).error)
    else if exists i | 1 <= i < |rows| :: |rows[i]| < 2 then Err(IndexError)
    else Ok(FromPairs(RowEntries(rows[1..])))
  }

  /** What `load_predictions` returns for the files on disk. */
  function PredictionsOnDisk(files: TableFiles, outputDir: string, expName: string)
    : (r: Result<Dict>)
    ensures SubmissionPath(outputDir, expName) !in files ==> r == Err(FileNotFoundError)
    ensures r.Err? ==> r.error in {FileNotFoundError, IndexError, AssertionError}
    ensures r.Ok? ==> DistinctKeys(r.value)
  {
    var path := SubmissionPath(outputDir, expName);
    if path in files then ParsePredictions(files[path]) else Err(FileNotFoundError)
  }

  /** `load_predictions`: reads the experiment's table row by row, checking the header on the
      first row and assigning every later row's entry into the dictionary. */
  method LoadPredictions(files: TableFiles, outputDir: string, expName: string)
    returns (r: Result<Dict>)
    ensures r == PredictionsOnDisk(files, outputDir, expName)
  {
    var path := SubmissionPath(outputDir, expName);
    if path !in files {
      return Err(FileNotFoundError);
    }
    var rows := files[path];
    var preds: Dict := [];
    for i := 0 to |rows|
      invariant i > 0 ==> CheckHeader(rows[0]).Pass?
      invariant forall j :: 1 <= j < i ==> |rows[j]| >= 2
      invariant preds == if i == 0 then [] else FromPairs(RowEntries(rows[1..i]))
    {
      if i == 0 {
        var check := CheckHeader(rows[0]);
        if check.Fail? {
          HeaderFails(rows);
          return Err(check.error);
        }
        continue;
      }
      var row := rows[i];
      if |row| < 2 {
        ShortRowFails(rows, i);
        return Err(IndexError);
      }
      var imgName := RemoveExtension(row[0]);
      ParseStep(rows, i);
      preds := Put(preds, imgName, row[1]);
    }
    if rows != [] {
      AllRowsParsed(rows);
    }
    return Ok(preds);
  }

  /** A first row that fails the header check makes loading fail with that check's error. */
  lemma HeaderFails(rows: Table)
    requires rows != [] && CheckHeader(rows[0]).Fail?
    ensures ParsePredictions(rows) == Err(CheckHeader(rows[0]).error)
  {
  }

  /** Under a good header, one data row with fewer than two fields makes loading fail. */
  lemma ShortRowFails(rows: Table, i: int)
    requires 1 <= i < |rows| && |rows[i]| < 2 && CheckHeader(rows[0]).Pass?
    ensures ParsePredictions(rows) == Err(IndexError)
  {
  }

  /** Under a good header, data rows of two fields or more all load. */
  lemma AllRowsParsed(rows: Table)
    requires rows != [] && CheckHeader(rows[0]).Pass?
    requires forall j :: 1 <= j < |rows| ==> |rows[j]| >= 2
    ensures ParsePredictions(rows) == Ok(FromPairs(RowEntries(rows[1..|rows|])))
  {
    assert rows[1..|rows|] == rows[1..];
  }

  /** One more data row assigns one more entry. */
  lemma ParseStep(rows: Table, i: int)
    requires 1 <= i < |rows|
    requires forall j :: 1 <= j <= i ==> |rows[j]| >= 2
    ensures FromPairs(RowEntries(rows[1..i + 1])) ==
      Put(FromPairs(RowEntries(rows[1..i])), RemoveExtension(rows[i][0]), rows[i][1])
  {
    var before, after := RowEntries(rows[1..i]), RowEntries(rows[1..i + 1]);
    assert after[..|after| - 1] == before;
  }

  /** A table loads only under the header `img,rle_mask`: a first row with other fields makes
      loading fail. */
  lemma LoadRequiresHeader(rows: Table)
    requires rows != [] && ParsePredictions(rows).Ok?
    ensures |rows[0]| >= 2 && rows[0][0] == "img" && rows[0][1] == "rle_mask"
  {
  }

  /** The loaded dictionary holds a name exactly when some row after the header carries it,
      with the encoding of the last such row. */
  lemma {:induction false} LoadedEntry(rows: Table, k: string)
    requires rows != [] && ParsePredictions(rows).Ok?
    ensures forall i :: 1 <= i < |rows| ==> |rows[i]| >= 2
    ensures Get(ParsePredictions(rows).value, k) ==
      var last := LastWith(RowEntries(rows[1..]), k);
      if last < 0 then None else Some(rows[last + 1][1])
  {
    FromPairsLastWins(RowEntries(rows[1..]), k);
  }

  /** The header row is never data: the first row's name enters the result only if a later
      row carries it. */
  lemma HeaderNotLoaded(rows: Table)
    requires rows != [] && ParsePredictions(rows).Ok?
    requires forall i :: 1 <= i < |rows| ==> RemoveExtension(rows[i][0]) != "img"
    ensures Get(ParsePredictions(rows).value, "img").None?
  {
    LoadedEntry(rows, "img");
  }

  /** Round trip: the table written for a dictionary loads back as that dictionary, provided
      every name has a stem so that removing ".jpg" recovers it. */
  lemma {:induction false} ParsePredictionRows(preds: Dict)
    requires DistinctKeys(preds)
    requires forall i :: 0 <= i < |preds| ==> HasStem(preds[i].0)
    ensures ParsePredictions(PredictionRows(preds)) == Ok(preds)
  {
    var rows := PredictionRows(preds);
    forall i | 0 <= i < |preds|
      ensures |rows[1..][i]| >= 2 && RowEntry(rows[1..][i]) == preds[i]
    {
      RemoveExtensionOfImgExt(preds[i].0);
    }
    assert RowEntries(rows[1..]) == preds;
    FromPairsOfDict(preds);
  }

  /** Round trip through the disk: loading right after saving returns the saved dictionary. */
  lemma SaveThenLoad(files: TableFiles, outputDir: string, expName: string, preds: Dict)
    requires DistinctKeys(preds)
    requires forall i :: 0 <= i < |preds| ==> HasStem(preds[i].0)
    ensures PredictionsOnDisk(SavePredictions(files, outputDir, expName, preds), outputDir, expName)
      == Ok(preds)
  {
    ParsePredictionRows(preds);
  }
}
