/** util/exp.py: checkpoint naming and selection, model-name parsing and the start epoch. */
module Exp {
  import opened Wrappers
  import opened Strings
  import opened Numbers
  import opened Paths
  import opened Seqs

  /** The suffix of every checkpoint file. */
  const CkptSuffix := ".pth.tar"

  /** What a checkpoint file records besides the weights: its experiment and its epoch. */
  datatype Checkpoint = Checkpoint(expName: string, epoch: int)

  /** The checkpoint files on disk, by path. */
  type CheckpointFiles = map<string, Checkpoint>

  // ---------------------------------------------------------------------------
  // Saving

  /** The file name `save_checkpoint` gives an epoch: the epoch in decimal, then the
      checkpoint suffix. */
  function CheckpointFileName(epoch: int): (r: string)
    ensures |r| > |CkptSuffix| && EndsWith(r, CkptSuffix)
    ensures forall i :: 0 <= i < |r| - |CkptSuffix| ==> r[i] == '-' || IsDigit(r[i])
  {
    IntToString(epoch) + CkptSuffix
  }

  /** The directory of an experiment's checkpoints: the output root joined with the
      experiment name. */
  function ExpDir(outputDir: string, expName: string): string
  {
    Join(outputDir, expName)
  }

  /** The experiment directory ends with the experiment name and, for a relative name, lies
      under the output root. */
  lemma ExpDirLayout(outputDir: string, expName: string)
    ensures var r := ExpDir(outputDir, expName);
      |expName| <= |r| && r[|r| - |expName|..] == expName
    ensures expName == [] || expName[0] != '/' ==> outputDir <= ExpDir(outputDir, expName)
  {
    JoinLayout(outputDir, expName);
  }

  /** `save_checkpoint`: records the experiment and epoch in the epoch's file of the
      experiment directory, and touches no other file. */
  function SaveCheckpoint(files: CheckpointFiles, outputDir: string, expName: string, epoch: int)
    : (r: CheckpointFiles)
    ensures var path := Join(ExpDir(outputDir, expName), CheckpointFileName(epoch));
      && r.Keys == files.Keys + {path}
      && r[path] == Checkpoint(expName, epoch)
      && forall p :: p in files && p != path ==> r[p] == files[p]
  {
    files[Join(ExpDir(outputDir, expName), CheckpointFileName(epoch)) := Checkpoint(expName, epoch)]
  }

  /** The epoch a checkpoint file name stands for is the epoch it was saved under. */
  lemma CheckpointFileNameRoundTrip(epoch: int)
    ensures EndsWith(CheckpointFileName(epoch), CkptSuffix)
    ensures PrefixBefore(CheckpointFileName(epoch), '.') == IntToString(epoch)
    ensures ParseInt(PrefixBefore(CheckpointFileName(epoch), '.')) == Ok(epoch)
  {
    var s := IntToString(epoch);
    assert '.' !in s by {
      if epoch < 0 {
        assert s == "-" + NatToString(-epoch);
      }
    }
    assert CheckpointFileName(epoch) == s + ['.'] + "pth.tar";
    PrefixBeforeJoined(s, '.', "pth.tar");
    ParseIntOfIntToString(epoch);
  }

  /** Different epochs are saved under different file names. */
  lemma CheckpointFileNameInjective(e1: int, e2: int)
    requires CheckpointFileName(e1) == CheckpointFileName(e2)
    ensures e1 == e2
  {
    CheckpointFileNameRoundTrip(e1);
    CheckpointFileNameRoundTrip(e2);
  }

  // ---------------------------------------------------------------------------
  // Finding the latest checkpoint

  /** The names of the checkpoint files of a listing, in listing order: each entry that ends
      in the checkpoint suffix, cut at its first '.'. */
  function CheckpointNames(listing: seq<string>): (r: seq<string>)
    ensures r == [] <==> forall i :: 0 <= i < |listing| ==> !EndsWith(listing[i], CkptSuffix)
  {
    if listing == [] then []
    else
      var n := |listing| - 1;
      var rest := CheckpointNames(listing[..n]);
      assert forall i :: 0 <= i < n ==> listing[..n][i] == listing[i];
      if EndsWith(listing[n], CkptSuffix) then rest + [PrefixBefore(listing[n], '.')] else rest
  }

  /** Every checkpoint name read as an integer, in order; `ValueError` as soon as one name is
      not a number. */
  function ParseEpochs(names: seq<string>): (r: Result<seq<int>>)
    ensures r.Err? <==> exists i :: 0 <= i < |names| && ParseInt(names[i]).Err?
    ensures r.Err? ==> r.error == ValueError
    ensures r.Ok? ==> (|r.value| == |names| &&
      forall i :: 0 <= i < |names| ==> ParseInt(names[i]) == Ok(r.value[i]))
  {
    if names == [] then Ok([])
    else
      var n := |names| - 1;
      assert forall i :: 0 <= i < n ==> names[..n][i] == names[i];
      match ParseEpochs(names[..n])
      case Err(e) => Err(e)
      case Ok(epochs) =>
        match ParseInt(names[n])
        case Err(e) => Err(e)
        case Ok(epoch) => Ok(epochs + [epoch])
  }

  /** The largest epoch: an element of `xs` that no element exceeds. */
  function MaxOf(xs: seq<int>): (m: int)
    requires xs != []
    ensures m in xs
    ensures forall i :: 0 <= i < |xs| ==> xs[i] <= m
  {
    if |xs| == 1 then xs[0]
    else
      var rest := MaxOf(xs[1..]);
      assert forall i :: 1 <= i < |xs| ==> xs[i] == xs[1..][i - 1];
      if xs[0] >= rest then xs[0] else rest
  }

  /** The largest value sits at some position of the sequence. */
  lemma MaxOfAt(xs: seq<int>)
    requires xs != []
    ensures exists i :: 0 <= i < |xs| && xs[i] == MaxOf(xs)
  {
    var m := MaxOf(xs);
    var i :| 0 <= i < |xs| && xs[i] == m;
  }

  /** The values occurring in a sequence, regardless of order and repetition. */
  function Elements(xs: seq<int>): set<int>
  {
    set x | x in xs
  }

  /** The maximum depends only on which values occur, not on their order or repetition. */
  lemma MaxOfSameElements(xs: seq<int>, ys: seq<int>)
    requires xs != [] && ys != []
    requires Elements(xs) == Elements(ys)
    ensures MaxOf(xs) == MaxOf(ys)
  {
    var a, b := MaxOf(xs), MaxOf(ys);
    assert a in Elements(xs) && b in Elements(ys);
    assert a in ys && b in xs;
  }

  /** `get_latest_ckpt` over the listing of `saveDir`: no checkpoint when no entry ends in
      `.pth.tar`; `ValueError` when the name of such an entry is not an integer; otherwise
      the path named after the largest epoch, which need not be a listed entry. */
  function GetLatestCkpt(saveDir: string, listing: seq<string>): (r: Result<Option<string>>)
    ensures r == Ok(None) <==> forall i :: 0 <= i < |listing| ==> !EndsWith(listing[i], CkptSuffix)
    ensures r.Err? <==> ParseEpochs(CheckpointNames(listing)).Err?
    ensures r.Err? ==> r.error == ValueError
    ensures r.Ok? && r.value.Some? ==>
      && ParseEpochs(CheckpointNames(listing)).Ok?
      && var epochs := ParseEpochs(CheckpointNames(listing)).value;
      exists i :: 0 <= i < |epochs| && (forall j :: 0 <= j < |epochs| ==> epochs[j] <= epochs[i])
        && r.value.value == Join(saveDir, CheckpointFileName(epochs[i]))
  {
    var names := CheckpointNames(listing);
    if names == [] then Ok(None)
    else
      match ParseEpochs(names)
      case Err(e) => Err(e)
      case Ok(epochs) =>
        MaxOfAt(epochs);
        Ok(Some(Join(saveDir, CheckpointFileName(MaxOf(epochs)))))
  }

  /** The chosen path carries the epoch as `str` writes it, so a file listed as "007.pth.tar"
      is looked for under "7.pth.tar". */
  lemma LatestCkptNormalisesEpoch(saveDir: string)
    ensures GetLatestCkpt(saveDir, ["007.pth.tar"]) == Ok(Some(Join(saveDir, "7.pth.tar")))
  {
    ZeroPaddedName();
    ZeroPaddedEpoch();
    assert MaxOf([7]) == 7;
    SevenFileName();
  }

  lemma SevenFileName()
    ensures CheckpointFileName(7) == "7.pth.tar"
  {
    assert IntToString(7) == "7";
  }

  lemma ZeroPaddedName()
    ensures CheckpointNames(["007.pth.tar"]) == ["007"]
  {
    var listing := ["007.pth.tar"];
    assert listing[..0] == [];
    assert EndsWith(listing[0], CkptSuffix);
    PrefixBeforeJoined("007", '.', "pth.tar");
    assert "007" + ['.'] + "pth.tar" == listing[0];
  }

  lemma ZeroPaddedEpoch()
    ensures ParseEpochs(["007"]) == Ok([7])
  {
    ParseIntLeadingZeros("07");
    ParseIntLeadingZeros("7");
    assert "0" + "07" == "007" && "0" + "7" == "07";
    assert DigitsValue("7") == 7;
    ParseEpochsAppend([], [], "007", 7, ["007"], [7]);
  }

  /** The file names a directory lists when it holds the checkpoints of `epochs`, in that
      order. */
  function FileNamesOf(epochs: seq<int>): (r: seq<string>)
    ensures |r| == |epochs|
  {
    if epochs == [] then []
    else FileNamesOf(epochs[..|epochs| - 1]) + [CheckpointFileName(epochs[|epochs| - 1])]
  }

  /** The name filter works entry by entry. */
  lemma CheckpointNamesAppend(listing: seq<string>, c: string)
    ensures CheckpointNames(listing + [c]) ==
      CheckpointNames(listing) + (if EndsWith(c, CkptSuffix) then [PrefixBefore(c, '.')] else [])
  {
    assert (listing + [c])[..|listing|] == listing;
  }

  /** Parsing works name by name. */
  lemma ParseEpochsAppend(names: seq<string>, epochs: seq<int>, name: string, epoch: int,
                          allNames: seq<string>, allEpochs: seq<int>)
    requires ParseEpochs(names) == Ok(epochs)
    requires ParseInt(name) == Ok(epoch)
    requires allNames == names + [name] && allEpochs == epochs + [epoch]
    ensures ParseEpochs(allNames) == Ok(allEpochs)
  {
    assert allNames[..|names|] == names;
  }

  /** Naming round trip over a whole listing: the epochs parsed from the checkpoint files of
      `epochs` are `epochs`. */
  lemma {:induction false} ParseSavedListing(epochs: seq<int>)
    ensures ParseEpochs(CheckpointNames(FileNamesOf(epochs))) == Ok(epochs)
  {
    if epochs != [] {
      var n := |epochs| - 1;
      var e := epochs[n];
      ParseSavedListing(epochs[..n]);
      SavedNamesLast(epochs);
      ParseIntOfIntToString(e);
      SplitLast(epochs);
      ParseEpochsAppend(CheckpointNames(FileNamesOf(epochs[..n])), epochs[..n], IntToString(e), e,
                        CheckpointNames(FileNamesOf(epochs)), epochs);
    }
  }

  /** The name kept from the last saved file is its epoch as `str` writes it. */
  lemma SavedNamesLast(epochs: seq<int>)
    requires epochs != []
    ensures var n := |epochs| - 1;
      CheckpointNames(FileNamesOf(epochs)) ==
        CheckpointNames(FileNamesOf(epochs[..n])) + [IntToString(epochs[n])]
  {
    var n := |epochs| - 1;
    CheckpointFileNameRoundTrip(epochs[n]);
    assert FileNamesOf(epochs) == FileNamesOf(epochs[..n]) + [CheckpointFileName(epochs[n])];
    CheckpointNamesAppend(FileNamesOf(epochs[..n]), CheckpointFileName(epochs[n]));
  }

  /** Whatever order the directory lists the saved checkpoints in, the latest one chosen is
      that of the largest epoch saved. */
  lemma LatestOfSavedEpochs(saveDir: string, listed: seq<int>, saved: seq<int>)
    requires saved != []
    requires Elements(listed) == Elements(saved)
    ensures GetLatestCkpt(saveDir, FileNamesOf(listed)) ==
      Ok(Some(Join(saveDir, CheckpointFileName(MaxOf(saved)))))
  {
    assert saved[0] in Elements(saved);
    ParseSavedListing(listed);
    MaxOfSameElements(listed, saved);
  }

  // ---------------------------------------------------------------------------
  // Loading an experiment

  /** `get_network`: the model is the class named by the experiment name up to its first '_'
      (the whole name when there is none), looked up among the names `models` defines. */
  function GetNetwork(expName: string, models: set<string>): (r: Result<string>)
    ensures r.Ok? <==> PrefixBefore(expName, '_') in models
    ensures r.Err? ==> r.error == AttributeError
    ensures r.Ok? ==> && r.value <= expName && '_' !in r.value
                      && (|r.value| < |expName| ==> expName[|r.value|] == '_')
  {
    var modelName := PrefixBefore(expName, '_');
    if modelName in models then Ok(modelName) else Err(AttributeError)
  }

  /** What `load_checkpoint` yields: the model and the epoch the checkpoint was saved at. */
  datatype Loaded = Loaded(model: string, savedEpoch: int)

  /** The checkpoint file at `ckptPath` exists and records another experiment. */
  predicate RecordsOtherExp(expName: string, ckptPath: Option<string>, files: CheckpointFiles)
  {
    ckptPath.Some? && ckptPath.value in files && files[ckptPath.value].expName != expName
  }

  /** `load_checkpoint`: the saved epoch of the checkpoint file at `ckptPath` if it exists
      (its recorded experiment must be `expName`), otherwise 0. It fails exactly when the
      file records another experiment (`AssertionError`, checked first) or no model class
      carries the experiment's prefix (`AttributeError`). */
  function LoadCheckpoint(expName: string, ckptPath: Option<string>, files: CheckpointFiles,
                          models: set<string>): (r: Result<Loaded>)
    ensures RecordsOtherExp(expName, ckptPath, files) ==> r == Err(AssertionError)
    ensures r.Ok? <==> !RecordsOtherExp(expName, ckptPath, files) && PrefixBefore(expName, '_') in models
    ensures r.Err? && !RecordsOtherExp(expName, ckptPath, files) ==> r.error == AttributeError
    ensures r.Ok? ==>
      r.value.savedEpoch == (if ckptPath.Some? && ckptPath.value in files then files[ckptPath.value].epoch else 0)
    ensures r.Ok? ==> GetNetwork(expName, models) == Ok(r.value.model)
  {
    if ckptPath.Some? && ckptPath.value in files then
      var ckpt := files[ckptPath.value];
      if expName != ckpt.expName then Err(AssertionError)
      else
        match GetNetwork(expName, models)
        case Err(e) => Err(e)
        case Ok(model) => Ok(Loaded(model, ckpt.epoch))
    else
      match GetNetwork(expName, models)
      case Err(e) => Err(e)
      case Ok(model) => Ok(Loaded(model, 0))
  }

  /** What `load_exp` yields: the model and the epoch to start training from. */
  datatype Resumed = Resumed(model: string, startEpoch: int)

  /** `load_exp`: finds the latest checkpoint in the experiment directory, whose listing is
      `listing`, loads it and starts at the epoch after the saved one. */
  function LoadExp(outputDir: string, expName: string, listing: seq<string>,
                   files: CheckpointFiles, models: set<string>): (r: Result<Resumed>)
    ensures r.Ok? ==> GetNetwork(expName, models) == Ok(r.value.model)
    ensures r.Ok? ==>
      var latest := GetLatestCkpt(ExpDir(outputDir, expName), listing);
      && latest.Ok?
      && r.value.startEpoch == 1 +
        (if latest.value.Some? && latest.value.value in files then files[latest.value.value].epoch else 0)
  {
    match GetLatestCkpt(ExpDir(outputDir, expName), listing)
    case Err(e) => Err(e)
    case Ok(ckptPath) =>
      match LoadCheckpoint(expName, ckptPath, files, models)
      case Err(e) => Err(e)
      case Ok(l) => Ok(Resumed(l.model, l.savedEpoch + 1))
  }

  /** Once `get_latest_ckpt` has picked `latest`, the experiment starts one epoch after the
      one recorded there, or at 1 when there is no such file. */
  lemma LoadExpWithLatest(outputDir: string, expName: string, listing: seq<string>,
                          files: CheckpointFiles, models: set<string>, latest: Option<string>,
                          startEpoch: int)
    requires GetLatestCkpt(ExpDir(outputDir, expName), listing) == Ok(latest)
    requires PrefixBefore(expName, '_') in models
    requires latest.Some? && latest.value in files ==> files[latest.value].expName == expName
    requires startEpoch ==
      1 + (if latest.Some? && latest.value in files then files[latest.value].epoch else 0)
    ensures LoadExp(outputDir, expName, listing, files, models) ==
      Ok(Resumed(PrefixBefore(expName, '_'), startEpoch))
  {
    var saved := if latest.Some? && latest.value in files then files[latest.value].epoch else 0;
    var loaded := LoadCheckpoint(expName, latest, files, models);
    assert !RecordsOtherExp(expName, latest, files);
    assert loaded.Ok?;
    assert loaded.value.model == PrefixBefore(expName, '_') && loaded.value.savedEpoch == saved;
  }

  /** A new experiment, with no checkpoint in its directory, starts at epoch 1. */
  lemma FreshExperimentStartsAtOne(outputDir: string, expName: string, listing: seq<string>,
                                   files: CheckpointFiles, models: set<string>)
    requires forall i :: 0 <= i < |listing| ==> !EndsWith(listing[i], CkptSuffix)
    requires PrefixBefore(expName, '_') in models
    ensures LoadExp(outputDir, expName, listing, files, models) ==
      Ok(Resumed(PrefixBefore(expName, '_'), 1))
  {
  }

  /** The files after saving the checkpoints of `epochs` in order. */
  ghost function SaveCheckpoints(files: CheckpointFiles, outputDir: string, expName: string,
                                 epochs: seq<int>): CheckpointFiles
  {
    if epochs == [] then files
    else
      var n := |epochs| - 1;
      SaveCheckpoint(SaveCheckpoints(files, outputDir, expName, epochs[..n]), outputDir, expName, epochs[n])
  }

  /** After saving, the file of each saved epoch records that epoch and the experiment. */
  lemma {:induction false} SavedCheckpointAt(files: CheckpointFiles, outputDir: string,
                                             expName: string, epochs: seq<int>, e: int)
    requires e in epochs
    ensures Join(ExpDir(outputDir, expName), CheckpointFileName(e)) in
      SaveCheckpoints(files, outputDir, expName, epochs)
    ensures SaveCheckpoints(files, outputDir, expName, epochs)
      [Join(ExpDir(outputDir, expName), CheckpointFileName(e))] == Checkpoint(expName, e)
  {
    var n := |epochs| - 1;
    var dir := ExpDir(outputDir, expName);
    if epochs[n] != e {
      assert e in epochs[..n];
      SavedCheckpointAt(files, outputDir, expName, epochs[..n], e);
      if Join(dir, CheckpointFileName(epochs[n])) == Join(dir, CheckpointFileName(e)) {
        FileNameIsRelative(epochs[n]);
        FileNameIsRelative(e);
        JoinInjective(dir, CheckpointFileName(epochs[n]), CheckpointFileName(e));
        CheckpointFileNameInjective(epochs[n], e);
      }
    }
  }

  lemma FileNameIsRelative(epoch: int)
    ensures CheckpointFileName(epoch) != [] && CheckpointFileName(epoch)[0] != '/'
  {
    if epoch >= 0 {
      assert IsDigit(NatToString(epoch)[0]);
    }
  }

  /** Resuming: after the checkpoints of `saved` are written, whatever order the directory
      lists them in, the experiment restarts at the epoch after the largest one saved. */
  lemma ResumeAfterSaves(files: CheckpointFiles, outputDir: string, expName: string,
                         saved: seq<int>, listed: seq<int>, models: set<string>)
    requires saved != []
    requires Elements(listed) == Elements(saved)
    requires PrefixBefore(expName, '_') in models
    ensures LoadExp(outputDir, expName, FileNamesOf(listed),
                    SaveCheckpoints(files, outputDir, expName, saved), models)
      == Ok(Resumed(PrefixBefore(expName, '_'), MaxOf(saved) + 1))
  {
    var dir := ExpDir(outputDir, expName);
    LatestOfSavedEpochs(dir, listed, saved);
    SavedCheckpointAt(files, outputDir, expName, saved, MaxOf(saved));
    var disk := SaveCheckpoints(files, outputDir, expName, saved);
    ResumeFromLatest(outputDir, expName, FileNamesOf(listed), disk, models, MaxOf(saved));
    var r := LoadExp(outputDir, expName, FileNamesOf(listed), disk, models);
    assert r.Ok? && r.value.model == PrefixBefore(expName, '_') && r.value.startEpoch == MaxOf(saved) + 1;
  }

  /** When the latest checkpoint is the file of epoch `e` and records this experiment, the
      experiment resumes at `e + 1`. */
  lemma ResumeFromLatest(outputDir: string, expName: string, listing: seq<string>,
                         files: CheckpointFiles, models: set<string>, e: int)
    requires GetLatestCkpt(ExpDir(outputDir, expName), listing) ==
      Ok(Some(Join(ExpDir(outputDir, expName), CheckpointFileName(e))))
    requires Join(ExpDir(outputDir, expName), CheckpointFileName(e)) in files
    requires files[Join(ExpDir(outputDir, expName), CheckpointFileName(e))] == Checkpoint(expName, e)
    requires PrefixBefore(expName, '_') in models
    ensures LoadExp(outputDir, expName, listing, files, models) ==
      Ok(Resumed(PrefixBefore(expName, '_'), e + 1))
  {
    var path := Join(ExpDir(outputDir, expName), CheckpointFileName(e));
    LoadExpWithLatest(outputDir, expName, listing, files, models, Some(path), e + 1);
  }

  /** A checkpoint listed under a name `str` would not write, such as "007.pth.tar", is looked
      for under "7.pth.tar"; when that file does not exist the experiment starts over at 1. */
  lemma UnnormalisedNameStartsOver(outputDir: string, expName: string, files: CheckpointFiles,
                                   models: set<string>)
    requires Join(ExpDir(outputDir, expName), "7.pth.tar") !in files
    requires PrefixBefore(expName, '_') in models
    ensures LoadExp(outputDir, expName, ["007.pth.tar"], files, models) ==
      Ok(Resumed(PrefixBefore(expName, '_'), 1))
  {
    var dir := ExpDir(outputDir, expName);
    LatestCkptNormalisesEpoch(dir);
    LoadExpWithLatest(outputDir, expName, ["007.pth.tar"], files, models,
                      Some(Join(dir, "7.pth.tar")), 1);
  }
}
