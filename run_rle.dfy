/** run_rle.py: un-batching the (image name, RLE) pairs of the RLE loader into the table the
    submission writer saves. */
module RunRle {
  import opened Wrappers
  import opened Paths
  import opened Dicts
  import opened Submit

  /** One item of the RLE loader: the image names and the RLE strings of one batch. */
  datatype Batch = Batch(imgNames: seq<string>, rles: seq<string>)

  /** A batch of exactly one image name and one RLE, the only kind `apply_rle` accepts. */
  predicate Single(b: Batch)
  {
    |b.imgNames| == 1 && |b.rles| == 1
  }

  /** The (image name, RLE) pair of each batch, in loader order. */
  function Pairs(loader: seq<Batch>): (ps: seq<(string, string)>)
    requires forall i :: 0 <= i < |loader| ==> |loader[i].imgNames| == 1 && |loader[i].rles| == 1
    ensures |ps| == |loader|
    ensures forall i :: 0 <= i < |loader| ==> ps[i] == (loader[i].imgNames[0], loader[i].rles[0])
  {
    if loader == [] then []
    else
      var n := |loader| - 1;
      Pairs(loader[..n]) + [(loader[n].imgNames[0], loader[n].rles[0])]
  }

  /** The dictionary `apply_rle` builds from the loader, or the `AssertionError` it stops with
      when a batch does not hold exactly one name and one RLE. */
  function RleTable(loader: seq<Batch>): (r: Result<Dict>)
    ensures r.Err? <==> exists i :: 0 <= i < |loader| && !Single(loader[i])
    ensures r.Err? ==> r.error == AssertionError
    ensures r.Ok? ==> DistinctKeys(r.value)
  {
    if exists i :: 0 <= i < |loader| && !Single(loader[i]) then Err(AssertionError)
    else Ok(FromPairs(Pairs(loader)))
  }

  /** `apply_rle`: starting from an empty dictionary, assigns each batch's encoding under its
      image name in turn, then saves the table as the submission of `predDir`. */
  method ApplyRle(files: TableFiles, outputDir: string, predDir: string, loader: seq<Batch>)
    returns (r: Result<TableFiles>)
    ensures RleTable(loader).Err? ==> r == Err(RleTable(loader).error)
    ensures RleTable(loader).Ok? ==> r == Ok(SavePredictions(files, outputDir, predDir, RleTable(loader).value))
  {
    var imgRles: Dict := [];
    for i := 0 to |loader|
      invariant forall j :: 0 <= j < i ==> Single(loader[j])
      invariant imgRles == FromPairs(Pairs(loader[..i]))
    {
      if |loader[i].imgNames| != 1 {
        return Err(AssertionError);
      }
      if |loader[i].rles| != 1 {
        return Err(AssertionError);
      }
      var imgName := loader[i].imgNames[0];
      var rle := loader[i].rles[0];
      PairsStep(loader, i);
      imgRles := Put(imgRles, imgName, rle);
    }
    assert loader[..|loader|] == loader;
    return Ok(SavePredictions(files, outputDir, predDir, imgRles));
  }

  lemma PairsStep(loader: seq<Batch>, i: int)
    requires 0 <= i < |loader|
    requires forall j :: 0 <= j <= i ==> |loader[j].imgNames| == 1 && |loader[j].rles| == 1
    ensures FromPairs(Pairs(loader[..i + 1])) ==
      Put(FromPairs(Pairs(loader[..i])), loader[i].imgNames[0], loader[i].rles[0])
  {
    assert loader[..i + 1][..i] == loader[..i];
  }

  /** An image is in the table exactly when some batch names it, and then it holds the RLE of
      the last batch that does. */
  lemma RleTableEntry(loader: seq<Batch>, k: string)
    requires RleTable(loader).Ok?
    ensures var last := LastWith(Pairs(loader), k);
      && (Get(RleTable(loader).value, k).Some? <==>
           exists i :: 0 <= i < |loader| && loader[i].imgNames[0] == k)
      && (last >= 0 ==> Get(RleTable(loader).value, k) == Some(loader[last].rles[0]))
      && (forall j :: last < j < |loader| ==> loader[j].imgNames[0] != k)
  {
    var ps := Pairs(loader);
    FromPairsLastWins(ps, k);
    if exists i :: 0 <= i < |loader| && loader[i].imgNames[0] == k {
      var i :| 0 <= i < |loader| && loader[i].imgNames[0] == k;
      assert ps[i].0 == k;
    }
  }

  /** Every key of the table is the image name of some batch. */
  lemma RleTableKeysFromLoader(loader: seq<Batch>, i: int)
    requires RleTable(loader).Ok?
    requires 0 <= i < |RleTable(loader).value|
    ensures exists j :: 0 <= j < |loader| && loader[j].imgNames[0] == RleTable(loader).value[i].0
  {
    var d := RleTable(loader).value;
    var k := d[i].0;
    assert d[i].0 == k;
    assert Get(d, k).Some?;
    RleTableEntry(loader, k);
  }

  /** What `apply_rle` writes is what `load_predictions` reads back, provided every image name
      keeps a non-empty stem once its ".jpg" extension is split off. */
  lemma ApplyRleThenLoad(files: TableFiles, outputDir: string, predDir: string, loader: seq<Batch>)
    requires RleTable(loader).Ok?
    requires forall i :: 0 <= i < |loader| ==> HasStem(loader[i].imgNames[0])
    ensures PredictionsOnDisk(SavePredictions(files, outputDir, predDir, RleTable(loader).value),
                              outputDir, predDir) == RleTable(loader)
  {
    var d := RleTable(loader).value;
    forall i | 0 <= i < |d|
      ensures HasStem(d[i].0)
    {
      RleTableKeysFromLoader(loader, i);
    }
    SaveThenLoad(files, outputDir, predDir, d);
  }
}
