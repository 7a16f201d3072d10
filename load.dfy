/** util/load.py: image names, car ids, image-set lists and directory listings. */
module Load {
  import opened Wrappers
  import opened Strings
  import opened Numbers
  import opened Paths
  import opened Seqs

  /** Every car is photographed from this many viewpoints, numbered from 1. */
  const ViewsPerCar := 16

  /** The three cars of the small development image set. */
  const SmallCarIds: seq<string> := ["00087a6bd4dc", "0495dcf27283", "0789bed99cb8"]

  // ---------------------------------------------------------------------------
  // Car ids and image names

  /** The car an image shows: the name up to its first '_', or the whole name when it has
      none. */
  function CarIdOf(imgName: string): (r: string)
    ensures r <= imgName && '_' !in r
    ensures |r| < |imgName| ==> imgName[|r|] == '_'
  {
    PrefixBefore(imgName, '_')
  }

  /** `get_car_ids`: the car ids of the images, each once. */
  function GetCarIds(imgNames: seq<string>): (r: seq<string>)
    ensures forall i, j :: 0 <= i < j < |r| ==> r[i] != r[j]
    ensures forall id :: id in r <==> exists i :: 0 <= i < |imgNames| && CarIdOf(imgNames[i]) == id
  {
    if imgNames == [] then []
    else
      var n := |imgNames| - 1;
      var rest := GetCarIds(imgNames[..n]);
      var id := CarIdOf(imgNames[n]);
      assert forall i :: 0 <= i < n ==> imgNames[..n][i] == imgNames[i];
      if id in rest then rest else rest + [id]
  }

  /** The name of view `i` of a car: the car id, '_' and `i` as two digits. */
  function ViewName(carId: string, i: nat): (r: string)
    ensures |r| >= |carId| + 3 && carId <= r && r[|carId|] == '_'
    ensures AllDigits(r[|carId| + 1..]) && DigitsValue(r[|carId| + 1..]) == i
    ensures i < 100 ==> |r| == |carId| + 3
  {
    var r := carId + "_" + ZeroPad2(i);
    assert r[|carId| + 1..] == ZeroPad2(i);
    r
  }

  /** The 16 view names of one car, in view order. */
  function ViewNames(carId: string): (r: seq<string>)
    ensures |r| == ViewsPerCar
  {
    seq(ViewsPerCar, j requires 0 <= j < ViewsPerCar => ViewName(carId, j + 1))
  }

  /** What `get_img_names_from_car_ids` returns: the view names of each car in turn. */
  function ImgNamesFromCarIds(carIds: seq<string>): (r: seq<string>)
    ensures |r| == 16 * |carIds|
  {
    if carIds == [] then []
    else ImgNamesFromCarIds(carIds[..|carIds| - 1]) + ViewNames(carIds[|carIds| - 1])
  }

  /** `get_img_names_from_car_ids`: appends the names of views 01 to 16 of every car. */
  method GetImgNamesFromCarIds(carIds: seq<string>) returns (imgNames: seq<string>)
    ensures imgNames == ImgNamesFromCarIds(carIds)
  {
    imgNames := [];
    for k := 0 to |carIds|
      invariant imgNames == ImgNamesFromCarIds(carIds[..k])
    {
      ghost var done := imgNames;
      ghost var views := ViewNames(carIds[k]);
      for i := 1 to ViewsPerCar + 1
        invariant imgNames == done + views[..i - 1]
      {
        ViewNameAt(carIds[k], i - 1);
        TakeNext(views, i - 1);
        AppendAssoc(done, views[..i - 1], [ViewName(carIds[k], i)]);
        imgNames := imgNames + [ViewName(carIds[k], i)];
      }
      TakeAll(views);
      TakeNext(carIds, k);
      ImgNamesLast(carIds[..k + 1]);
      TakeTake(carIds, k);
    }
    TakeAll(carIds);
  }

  /** Position `16 k + j` holds view `j + 1` of car `k`: sixteen names per car, cars in input
      order, views ascending within a car. */
  lemma {:induction false} ImgNameAt(carIds: seq<string>, k: int, j: int)
    requires 0 <= k < |carIds| && 0 <= j < ViewsPerCar
    ensures ImgNamesFromCarIds(carIds)[16 * k + j] == ViewName(carIds[k], j + 1)
  {
    var n := |carIds| - 1;
    var prev := ImgNamesFromCarIds(carIds[..n]);
    ImgNamesLast(carIds);
    if k < n {
      ImgNameAt(carIds[..n], k, j);
      assert carIds[..n][k] == carIds[k];
      AppendIndexLeft(prev, ViewNames(carIds[n]), 16 * k + j);
    } else {
      var views := ViewNames(carIds[n]);
      assert |prev| == 16 * k;
      AppendIndexRight(prev, views, |prev| + j);
      ViewNameAt(carIds[n], j);
      assert ImgNamesFromCarIds(carIds)[|prev| + j] == ViewName(carIds[n], j + 1);
    }
  }

  lemma ViewNameAt(carId: string, j: int)
    requires 0 <= j < ViewsPerCar
    ensures ViewNames(carId)[j] == ViewName(carId, j + 1)
  {
  }


  /** The last car's views come last. */
  lemma ImgNamesLast(carIds: seq<string>)
    requires carIds != []
    ensures ImgNamesFromCarIds(carIds) ==
      ImgNamesFromCarIds(carIds[..|carIds| - 1]) + ViewNames(carIds[|carIds| - 1])
  {
  }

  /** The car id of a view name is the car it was made from. */
  lemma CarIdOfViewName(carId: string, i: nat)
    requires '_' !in carId
    ensures CarIdOf(ViewName(carId, i)) == carId
  {
    PrefixBeforeJoined(carId, '_', ZeroPad2(i));
  }

  /** Different (car, view) pairs give different names. */
  lemma ViewNameInjective(a: string, i: nat, b: string, j: nat)
    requires '_' !in a && '_' !in b
    requires ViewName(a, i) == ViewName(b, j)
    ensures a == b && i == j
  {
    CarIdOfViewName(a, i);
    CarIdOfViewName(b, j);
    assert ZeroPad2(i) == ViewName(a, i)[|a| + 1..];
    assert ZeroPad2(j) == ViewName(b, j)[|b| + 1..];
  }

  /** Round trip: the car ids of the names generated for some cars are those cars. */
  lemma CarIdsRoundTrip(carIds: seq<string>)
    requires forall k :: 0 <= k < |carIds| ==> '_' !in carIds[k]
    ensures forall id :: id in GetCarIds(ImgNamesFromCarIds(carIds)) <==> id in carIds
  {
    forall id
      ensures id in GetCarIds(ImgNamesFromCarIds(carIds)) <==> id in carIds
    {
      CarIdRecovered(carIds, id);
    }
  }

  lemma CarIdRecovered(carIds: seq<string>, id: string)
    requires forall k :: 0 <= k < |carIds| ==> '_' !in carIds[k]
    ensures id in GetCarIds(ImgNamesFromCarIds(carIds)) <==> id in carIds
  {
    var names := ImgNamesFromCarIds(carIds);
    if id in carIds {
      var k :| 0 <= k < |carIds| && carIds[k] == id;
      CarIdOfImgNameAt(carIds, k, 0);
      CarIdListed(names, 16 * k);
    }
    if id in GetCarIds(names) {
      var i := CarIdSource(names, id);
      assert i == 16 * (i / 16) + i % 16;
      CarIdOfImgNameAt(carIds, i / 16, i % 16);
    }
  }

  lemma CarIdListed(imgNames: seq<string>, i: int)
    requires 0 <= i < |imgNames|
    ensures CarIdOf(imgNames[i]) in GetCarIds(imgNames)
  {
  }

  lemma CarIdSource(imgNames: seq<string>, id: string) returns (i: int)
    requires id in GetCarIds(imgNames)
    ensures 0 <= i < |imgNames| && CarIdOf(imgNames[i]) == id
  {
    i :| 0 <= i < |imgNames| && CarIdOf(imgNames[i]) == id;
  }

  lemma CarIdOfImgNameAt(carIds: seq<string>, k: int, j: int)
    requires forall k :: 0 <= k < |carIds| ==> '_' !in carIds[k]
    requires 0 <= k < |carIds| && 0 <= j < ViewsPerCar
    ensures CarIdOf(ImgNamesFromCarIds(carIds)[16 * k + j]) == carIds[k]
  {
    ImgNameAt(carIds, k, j);
    CarIdOfViewName(carIds[k], j + 1);
  }

  /** Cars given once each, with no '_' in their ids, get pairwise different image names. */
  lemma ImgNamesDistinct(carIds: seq<string>)
    requires forall k :: 0 <= k < |carIds| ==> '_' !in carIds[k]
    requires forall k, l :: 0 <= k < l < |carIds| ==> carIds[k] != carIds[l]
    ensures forall p, q :: 0 <= p < q < |ImgNamesFromCarIds(carIds)| ==>
      ImgNamesFromCarIds(carIds)[p] != ImgNamesFromCarIds(carIds)[q]
  {
    forall p, q | 0 <= p < q < |ImgNamesFromCarIds(carIds)|
      ensures ImgNamesFromCarIds(carIds)[p] != ImgNamesFromCarIds(carIds)[q]
    {
      ImgNamesDiffer(carIds, p, q);
    }
  }

  lemma ImgNamesDiffer(carIds: seq<string>, p: int, q: int)
    requires forall k :: 0 <= k < |carIds| ==> '_' !in carIds[k]
    requires forall k, l :: 0 <= k < l < |carIds| ==> carIds[k] != carIds[l]
    requires 0 <= p < q < |ImgNamesFromCarIds(carIds)|
    ensures ImgNamesFromCarIds(carIds)[p] != ImgNamesFromCarIds(carIds)[q]
  {
    DecodeImgNameAt(carIds, p);
    DecodeImgNameAt(carIds, q);
  }

  /** The name at position `p` of the expansion decodes to car `p / 16` and view `p % 16 + 1`. */
  lemma DecodeImgNameAt(carIds: seq<string>, p: int)
    requires forall k :: 0 <= k < |carIds| ==> '_' !in carIds[k]
    requires 0 <= p < |ImgNamesFromCarIds(carIds)|
    ensures 0 <= p / 16 < |carIds| && p == 16 * (p / 16) + p % 16
    ensures CarIdOf(ImgNamesFromCarIds(carIds)[p]) == carIds[p / 16]
    ensures ViewNumber(ImgNamesFromCarIds(carIds)[p]) == p % 16 + 1
  {
    var k, j := p / 16, p % 16;
    ViewPosition(p, |carIds|);
    ImgNameAt(carIds, k, j);
    CarIdOfViewName(carIds[k], j + 1);
    ViewNumberOfViewName(carIds[k], j + 1);
  }

  /** Position `p` of the expansion is view `p % 16` of car `p / 16`. */
  lemma ViewPosition(p: int, cars: int)
    requires 0 <= p < 16 * cars
    ensures 0 <= p / 16 < cars && 0 <= p % 16 < 16 && p == 16 * (p / 16) + p % 16
  {
  }

  /** The view number a name carries after its car id and '_', or -1 when the rest is not a
      run of digits. */
  function ViewNumber(name: string): int
  {
    var rest := name[|CarIdOf(name)|..];
    if |rest| >= 2 && AllDigits(rest[1..]) then DigitsValue(rest[1..]) else -1
  }

  /** A view name carries its view number. */
  lemma ViewNumberOfViewName(carId: string, i: nat)
    requires '_' !in carId
    ensures ViewNumber(ViewName(carId, i)) == i
  {
    CarIdOfViewName(carId, i);
    var name := ViewName(carId, i);
    assert name[|carId|..][1..] == ZeroPad2(i);
  }

  /** `load_small_imageset`: the 48 view names of the three development cars. */
  method LoadSmallImageset() returns (imgNames: seq<string>)
    ensures imgNames == ImgNamesFromCarIds(SmallCarIds)
    ensures |imgNames| == 3 * ViewsPerCar
  {
    imgNames := GetImgNamesFromCarIds(SmallCarIds);
  }

  // ---------------------------------------------------------------------------
  // Image-set lists

  /** The first field of every row. */
  function FirstFields(rows: seq<seq<string>>): (r: seq<string>)
    requires forall i :: 0 <= i < |rows| ==> rows[i] != []
    ensures |r| == |rows| && forall i :: 0 <= i < |rows| ==> r[i] == rows[i][0]
  {
    seq(|rows|, i requires 0 <= i < |rows| => rows[i][0])
  }

  /** Ascending in Python's string order. */
  predicate Sorted(s: seq<string>)
  {
    forall i, j :: 0 <= i < j < |s| ==> StrLe(s[i], s[j])
  }

  /** `load_imageset` over the rows the CSV reader yields: the first field of every row,
      sorted; a row with no fields (a blank line) has no first field and raises `IndexError`. */
  method LoadImageset(rows: seq<seq<string>>) returns (r: Result<seq<string>>)
    ensures r.Err? <==> exists i :: 0 <= i < |rows| && rows[i] == []
    ensures r.Err? ==> r.error == IndexError
    ensures r.Ok? ==> Sorted(r.value) && multiset(r.value) == multiset(FirstFields(rows))
  {
    var imgNames: seq<string> := [];
    for i := 0 to |rows|
      invariant forall k :: 0 <= k < i ==> rows[k] != []
      invariant imgNames == FirstFields(rows[..i])
    {
      if rows[i] == [] {
        return Err(IndexError);
      }
      imgNames := imgNames + [rows[i][0]];
    }
    assert rows[..|rows|] == rows;
    var a := new string[|imgNames|](k requires 0 <= k < |imgNames| => imgNames[k]);
    assert a[..] == imgNames;
    SortInPlace(a);
    return Ok(a[..]);
  }

  /** Sorting the list of names in place, by insertion. */
  method SortInPlace(a: array<string>)
    modifies a
    ensures Sorted(a[..])
    ensures multiset(a[..]) == old(multiset(a[..]))
  {
    var i := 0;
    while i < a.Length
      invariant 0 <= i <= a.Length
      invariant forall k :: 0 <= k < i - 1 ==> StrLe(a[k], a[k + 1])
      invariant multiset(a[..]) == old(multiset(a[..]))
    {
      InsertLast(a, i);
      i := i + 1;
    }
    AdjacentSortedIsSorted(a[..]);
  }

  /** Moves `a[i]` down into the sorted prefix `a[..i]`, leaving `a[..i + 1]` sorted. */
  method InsertLast(a: array<string>, i: int)
    requires 0 <= i < a.Length
    requires forall k :: 0 <= k < i - 1 ==> StrLe(a[k], a[k + 1])
    modifies a
    ensures forall k :: 0 <= k < i ==> StrLe(a[k], a[k + 1])
    ensures multiset(a[..]) == old(multiset(a[..]))
  {
    var j := i;
    while j > 0 && !StrLe(a[j - 1], a[j])
      invariant 0 <= j <= i
      invariant forall k :: 0 <= k < j - 1 ==> StrLe(a[k], a[k + 1])
      invariant forall k :: j <= k < i ==> StrLe(a[k], a[k + 1])
      invariant 0 < j < i ==> StrLe(a[j - 1], a[j + 1])
      invariant multiset(a[..]) == old(multiset(a[..]))
    {
      StrLeTotal(a[j - 1], a[j]);
      Swap(a, j - 1, j);
      j := j - 1;
    }
  }

  /** Exchanges two neighbouring elements. */
  method Swap(a: array<string>, i: int, j: int)
    requires 0 <= i < j < a.Length
    modifies a
    ensures a[..] == old(a[..])[i := old(a[j])][j := old(a[i])]
    ensures multiset(a[..]) == old(multiset(a[..]))
  {
    a[i], a[j] := a[j], a[i];
  }

  /** Sorted neighbours make a sorted sequence, because the string order is transitive. */
  lemma AdjacentSortedIsSorted(s: seq<string>)
    requires forall k :: 0 <= k < |s| - 1 ==> StrLe(s[k], s[k + 1])
    ensures Sorted(s)
  {
    forall i, j | 0 <= i < j < |s|
      ensures StrLe(s[i], s[j])
    {
      AdjacentChain(s, i, j);
    }
  }

  lemma {:induction false} AdjacentChain(s: seq<string>, i: int, j: int)
    requires forall k :: 0 <= k < |s| - 1 ==> StrLe(s[k], s[k + 1])
    requires 0 <= i < j < |s|
    ensures StrLe(s[i], s[j])
  {
    if j > i + 1 {
      AdjacentChain(s, i, j - 1);
      StrLeTransitive(s[i], s[j - 1], s[j]);
    }
  }

  /** Sorting determines its result: two sorted arrangements of the same names are equal. */
  lemma {:induction false} SortedPermutationUnique(s: seq<string>, t: seq<string>)
    requires Sorted(s) && Sorted(t) && multiset(s) == multiset(t)
    ensures s == t
  {
    if s != [] && t != [] {
      SortedSameHead(s, t);
      SortedTail(s);
      SortedTail(t);
      HeadTail(s);
      HeadTail(t);
      SortedPermutationUnique(s[1..], t[1..]);
    }
  }

  lemma SortedSameHead(s: seq<string>, t: seq<string>)
    requires Sorted(s) && Sorted(t) && multiset(s) == multiset(t)
    requires s != [] && t != []
    ensures s[0] == t[0]
  {
    assert s[0] in multiset(t) && t[0] in multiset(s);
    SortedHeadIsLeast(s, t[0]);
    SortedHeadIsLeast(t, s[0]);
    StrLeAntisymmetric(s[0], t[0]);
  }

  lemma SortedHeadIsLeast(s: seq<string>, x: string)
    requires Sorted(s) && x in s
    ensures StrLe(s[0], x)
  {
    var i :| 0 <= i < |s| && s[i] == x;
    if i == 0 {
      StrLeReflexive(x);
    }
  }

  lemma SortedTail(s: seq<string>)
    requires Sorted(s) && s != []
    ensures Sorted(s[1..])
  {
    forall i, j | 0 <= i < j < |s| - 1
      ensures StrLe(s[1..][i], s[1..][j])
    {
      assert s[1..][i] == s[i + 1] && s[1..][j] == s[j + 1];
    }
  }

  // ---------------------------------------------------------------------------
  // File names and directory listings

  /** `get_filename`: the base name of `path`, split into stem and extension. */
  function GetFilename(path: string): (r: (string, string))
    ensures r.0 + r.1 == Basename(path)
    ensures '/' !in r.0 + r.1
    ensures r.1 == [] || IsExtension(r.1)
  {
    SplitExt(Basename(path))
  }

  /** One entry of `os.listdir`, with what `os.path.isfile` says of it. */
  datatype DirEntry = DirEntry(name: string, isFile: bool)

  /** The stems of the regular files whose extension is `ext`, in listing order. */
  function StemsWithExt(entries: seq<DirEntry>, ext: string): (r: seq<string>)
    ensures |r| <= |entries|
  {
    if entries == [] then []
    else
      var n := |entries| - 1;
      var rest := StemsWithExt(entries[..n], ext);
      var parts := SplitExt(entries[n].name);
      if entries[n].isFile && parts.1 == ext then rest + [parts.0] else rest
  }

  /** A stem is listed exactly when a regular file of that stem and extension is present. */
  lemma StemsWithExtMember(entries: seq<DirEntry>, ext: string)
    requires IsExtension(ext)
    ensures forall x :: x in StemsWithExt(entries, ext) <==>
      HasStem(x) && DirEntry(x + ext, true) in entries
  {
    forall x
      ensures x in StemsWithExt(entries, ext) <==>
        HasStem(x) && DirEntry(x + ext, true) in entries
    {
      StemListed(entries, ext, x);
    }
  }

  lemma {:induction false} StemListed(entries: seq<DirEntry>, ext: string, x: string)
    requires IsExtension(ext)
    ensures x in StemsWithExt(entries, ext) <==> HasStem(x) && DirEntry(x + ext, true) in entries
  {
    if entries != [] {
      var n := |entries| - 1;
      StemListed(entries[..n], ext, x);
      var e := entries[n];
      SplitLast(entries);
      if HasStem(x) && e == DirEntry(x + ext, true) {
        SplitExtOfAppended(x, ext);
      }
      if e.isFile && SplitExt(e.name).1 == ext && SplitExt(e.name).0 == x {
        assert e.name == x + ext;
      }
    }
  }

  /** Listing order is kept: the stems of two listings one after the other are the stems of
      the first followed by the stems of the second. */
  lemma {:induction false} StemsWithExtAppend(a: seq<DirEntry>, b: seq<DirEntry>, ext: string)
    ensures StemsWithExt(a + b, ext) == StemsWithExt(a, ext) + StemsWithExt(b, ext)
  {
    if b == [] {
      AppendEmpty(a);
    } else {
      var n := |b| - 1;
      AppendDropLast(a, b);
      StemsWithExtAppend(a, b[..n], ext);
    }
  }

  /** `list_img_in_dir`: the names of the JPEG images in the listing, without extension. */
  function ListImgInDir(entries: seq<DirEntry>): (r: seq<string>)
    ensures forall x :: x in r <==>
      HasStem(x) && DirEntry(x + ".jpg", true) in entries
  {
    StemsWithExtMember(entries, ".jpg");
    StemsWithExt(entries, ".jpg")
  }

  /** `list_csv_in_dir`: the names of the CSV files in the listing, without extension. */
  function ListCsvInDir(entries: seq<DirEntry>): (r: seq<string>)
    ensures forall x :: x in r <==>
      HasStem(x) && DirEntry(x + ".csv", true) in entries
  {
    StemsWithExtMember(entries, ".csv");
    StemsWithExt(entries, ".csv")
  }
}
