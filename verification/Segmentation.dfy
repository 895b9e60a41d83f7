/** Segmenting a query (engine/src/phrase_engine.cpp): the chunks between hard boundaries
    are segmented one after the other, and their paths combined within the limits. Chunks
    are normalised. */
module Segmentation {
  import opened Order
  import opened Segmenter

  // --- Products --------------------------------------------------------------

  function Each<T>(front: seq<T>, tails: seq<seq<T>>): (r: seq<seq<T>>)
    ensures |r| == |tails| && forall i | 0 <= i < |r| :: r[i] == front + tails[i]
  {
    seq(|tails|, i requires 0 <= i < |tails| => front + tails[i])
  }

  /** Every front with every tail, in order. */
  function Product<T>(fronts: seq<seq<T>>, tails: seq<seq<T>>): (r: seq<seq<T>>) {
    if fronts == [] then [] else Each(fronts[0], tails) + Product(fronts[1..], tails)
  }

  /** One item of each list, in order. */
  ghost function Products<T>(lists: seq<seq<seq<T>>>): (r: seq<seq<T>>) {
    if lists == [] then [[]] else Product(Products(lists[..|lists| - 1]), lists[|lists| - 1])
  }

  /** The item is put together from one item of each list. */
  ghost predicate Picks<T(!new)>(lists: seq<seq<seq<T>>>, item: seq<T>) {
    if lists == [] then item == []
    else
      exists front, tail ::
        tail in lists[|lists| - 1] && Picks(lists[..|lists| - 1], front) && item == front + tail
  }

  lemma {:induction false} ProductMembers<T(!new)>(fronts: seq<seq<T>>, tails: seq<seq<T>>, item: seq<T>)
    ensures item in Product(fronts, tails) <==>
              exists front, tail :: front in fronts && tail in tails && item == front + tail
  {
    if fronts != [] {
      ProductMembers(fronts[1..], tails, item);
      assert fronts == [fronts[0]] + fronts[1..];
      var here := Each(fronts[0], tails);
      assert item in here <==> exists tail :: tail in tails && item == fronts[0] + tail by {
        if item in here {
          var i :| 0 <= i < |here| && here[i] == item;
          assert tails[i] in tails;
        }
        if tail :| tail in tails && item == fronts[0] + tail {
          var i :| 0 <= i < |tails| && tails[i] == tail;
          assert here[i] == item;
        }
      }
    }
  }

  /** The product holds exactly the combinations. */
  lemma {:induction false} ProductsArePicks<T(!new)>(lists: seq<seq<seq<T>>>, item: seq<T>)
    ensures item in Products(lists) <==> Picks(lists, item)
  {
    if lists != [] {
      var before, last := lists[..|lists| - 1], lists[|lists| - 1];
      ProductMembers(Products(before), last, item);
      forall front ensures front in Products(before) <==> Picks(before, front) {
        ProductsArePicks(before, front);
      }
    }
  }

  lemma OneProduct<T>(front: seq<T>, tail: seq<T>)
    ensures Product([front], [tail]) == [front + tail]
  {
    assert [front][1..] == [];
  }

  lemma {:induction false} ProductSplits<T>(a: seq<seq<T>>, b: seq<seq<T>>, tails: seq<seq<T>>)
    ensures Product(a + b, tails) == Product(a, tails) + Product(b, tails)
  {
    if a == [] {
      assert a + b == b;
    } else {
      assert (a + b)[0] == a[0] && (a + b)[1..] == a[1..] + b;
      ProductSplits(a[1..], b, tails);
    }
  }

  lemma {:induction false} ProductSize<T>(fronts: seq<seq<T>>, tails: seq<seq<T>>)
    requires tails != []
    ensures |Product(fronts, tails)| >= |fronts|
  {
    if fronts != [] {
      ProductSize(fronts[1..], tails);
    }
  }

  /** Only the first fronts matter for the first combinations. */
  lemma CutFronts<T>(fronts: seq<seq<T>>, tails: seq<seq<T>>, limit: nat)
    requires tails != []
    ensures Cut(Product(Cut(fronts, limit), tails), limit) == Cut(Product(fronts, tails), limit)
  {
    if |fronts| > limit {
      assert fronts == fronts[..limit] + fronts[limit..];
      ProductSplits(fronts[..limit], fronts[limit..], tails);
      ProductSize(fronts[..limit], tails);
    }
  }

  /** Only the first tails matter for the first combinations. */
  lemma CutTails<T>(fronts: seq<seq<T>>, tails: seq<seq<T>>, limit: nat)
    ensures Cut(Product(fronts, Cut(tails, limit)), limit) == Cut(Product(fronts, tails), limit)
  {
    if |tails| > limit && fronts != [] {
      var short, long := Each(fronts[0], tails[..limit]), Each(fronts[0], tails);
      assert long[..limit] == short;
      assert Product(fronts, tails[..limit])[..limit] == short;
      assert Product(fronts, tails)[..limit] == short;
    }
  }

  /** Cutting every list and every product gives the front of the whole product. */
  lemma CutProduct<T>(fronts: seq<seq<T>>, tails: seq<seq<T>>, limit: nat)
    requires limit > 0
    ensures Cut(Product(Cut(fronts, limit), Cut(tails, limit)), limit) == Cut(Product(fronts, tails), limit)
  {
    CutTails(Cut(fronts, limit), tails, limit);
    if tails != [] {
      CutFronts(fronts, tails, limit);
    } else {
      NoTails(fronts, tails);
      NoTails(Cut(fronts, limit), tails);
    }
  }

  lemma {:induction false} NoTails<T>(fronts: seq<seq<T>>, tails: seq<seq<T>>)
    requires tails == []
    ensures Product(fronts, tails) == []
  {
    if fronts != [] {
      NoTails(fronts[1..], tails);
    }
  }

  // --- Segmenting the chunks -------------------------------------------------

  function Fitting(paths: seq<Path>, longest: nat): (r: seq<Path>) {
    if paths == [] then []
    else (if |paths[0]| <= longest then [paths[0]] else []) + Fitting(paths[1..], longest)
  }

  lemma {:induction false} FittingSplits(a: seq<Path>, b: seq<Path>, longest: nat)
    ensures Fitting(a + b, longest) == Fitting(a, longest) + Fitting(b, longest)
  {
    if a == [] {
      assert a + b == b;
    } else {
      assert (a + b)[0] == a[0] && (a + b)[1..] == a[1..] + b;
      FittingSplits(a[1..], b, longest);
    }
  }

  lemma {:induction false} FittingMembers(paths: seq<Path>, longest: nat, path: Path)
    ensures path in Fitting(paths, longest) <==> path in paths && |path| <= longest
  {
    if paths != [] {
      FittingMembers(paths[1..], longest, path);
      assert paths == [paths[0]] + paths[1..];
    }
  }

  lemma {:induction false} AllFit(paths: seq<Path>, longest: nat)
    requires forall path | path in paths :: |path| <= longest
    ensures Fitting(paths, longest) == paths
  {
    if paths != [] {
      AllFit(paths[1..], longest);
      assert paths == [paths[0]] + paths[1..];
    }
  }

  lemma FittingAt(paths: seq<Path>, longest: nat, j: nat)
    requires j < |paths|
    ensures Fitting(paths[..j + 1], longest) ==
              Fitting(paths[..j], longest) + if |paths[j]| <= longest then [paths[j]] else []
    ensures Fitting(paths, longest) == Fitting(paths[..j + 1], longest) + Fitting(paths[j + 1..], longest)
  {
    assert paths[..j + 1] == paths[..j] + [paths[j]];
    FittingSplits(paths[..j], [paths[j]], longest);
    var one: seq<Path> := [paths[j]];
    assert one[1..] == [];
    assert paths == paths[..j + 1] + paths[j + 1..];
    FittingSplits(paths[..j + 1], paths[j + 1..], longest);
  }

  lemma CutAtFull<T>(a: seq<T>, b: seq<T>, c: seq<T>, limit: nat)
    requires |a + b| == limit
    ensures Cut(a + (b + c), limit) == a + b
  {
    assert a + (b + c) == (a + b) + c;
  }

  /** The inner loop: one front with every tail that fits, up to the limit. */
  method ExtendPath(front: Path, tails: seq<Path>, longest: nat, limit: nat, found: seq<Path>) returns (next: seq<Path>)
    requires |found| < limit
    ensures next == Cut(found + Fitting(Each(front, tails), longest), limit)
  {
    next := found;
    ghost var all := Each(front, tails);
    var j := 0;
    while j < |tails|
      invariant 0 <= j <= |tails| && |next| < limit
      invariant next == found + Fitting(all[..j], longest)
    {
      FittingAt(all, longest, j);
      j := j + 1;
      if |front| + |tails[j - 1]| > longest {
        continue;
      }
      next := next + [front + tails[j - 1]];
      if |next| >= limit {
        CutAtFull(found, Fitting(all[..j], longest), Fitting(all[j..], longest), limit);
        return;
      }
    }
    assert all[..j] == all;
  }

  /** Both loops: fronts with tails in order, those that fit, up to the limit. */
  method Combine(fronts: seq<Path>, tails: seq<Path>, longest: nat, limit: nat) returns (next: seq<Path>)
    requires limit > 0
    ensures next == Cut(Fitting(Product(fronts, tails), longest), limit)
  {
    next := [];
    var i := 0;
    while i < |fronts|
      invariant 0 <= i <= |fronts| && |next| <= limit
      invariant next == Cut(Fitting(Product(fronts[..i], tails), longest), limit)
      invariant |next| < limit || i == |fronts|
    {
      ghost var done, here := Product(fronts[..i], tails), Each(fronts[i], tails);
      assert fronts[..i + 1] == fronts[..i] + [fronts[i]];
      ProductSplits(fronts[..i], [fronts[i]], tails);
      assert Product([fronts[i]], tails) == here;
      FittingSplits(done, here, longest);
      next := ExtendPath(fronts[i], tails, longest, limit, next);
      i := i + 1;
      if |next| >= limit {
        ghost var rest := Product(fronts[i..], tails);
        assert fronts == fronts[..i] + fronts[i..];
        ProductSplits(fronts[..i], fronts[i..], tails);
        FittingSplits(Product(fronts[..i], tails), rest, longest);
        return;
      }
    }
    assert fronts[..i] == fronts;
  }

  /** The paths of one chunk, as `SegmentChunk` returns them. */
  ghost function ChunkPaths(table: Table, limits: Limits, boundary: bool, chunk: Bytes): (r: seq<Path>) {
    if |chunk| > limits.letters then [] else Cut(ChunkAll(table, limits, boundary, chunk), limits.paths)
  }

  /** All paths of one chunk; a syllable between boundaries stays whole, and a chunk
      without letters has none. */
  ghost function ChunkAll(table: Table, limits: Limits, boundary: bool, chunk: Bytes): (r: seq<Path>) {
    if chunk == [] then []
    else if boundary && chunk in table.syllables then [[chunk]]
    else All(table, chunk, limits.syllables)
  }

  /** The chunks one after the other, cut after each. */
  ghost function Staged(table: Table, limits: Limits, boundary: bool, chunks: seq<Bytes>): (r: seq<Path>) {
    if chunks == [] then [[]]
    else
      var before := Staged(table, limits, boundary, chunks[..|chunks| - 1]);
      var last := ChunkPaths(table, limits, boundary, chunks[|chunks| - 1]);
      Cut(Fitting(Product(before, last), limits.syllables), limits.paths)
  }

  ghost predicate Usable(limits: Limits, text: Bytes) {
    text != [] && |text| <= limits.letters && limits.paths > 0 && limits.syllables > 0
  }

  lemma {:induction false} StagedEmpty(table: Table, limits: Limits, boundary: bool, chunks: seq<Bytes>, i: nat)
    requires i <= |chunks| && Staged(table, limits, boundary, chunks[..i]) == []
    ensures Staged(table, limits, boundary, chunks) == []
    decreases |chunks| - i
  {
    if i < |chunks| {
      assert chunks[..i + 1][..i] == chunks[..i];
      StagedEmpty(table, limits, boundary, chunks, i + 1);
    } else {
      assert chunks[..i] == chunks;
    }
  }

  lemma StagedNext(table: Table, limits: Limits, boundary: bool, chunks: seq<Bytes>, i: nat)
    requires i < |chunks|
    ensures var before := Staged(table, limits, boundary, chunks[..i]);
            var last := ChunkPaths(table, limits, boundary, chunks[i]);
            Staged(table, limits, boundary, chunks[..i + 1])
            == Cut(Fitting(Product(before, last), limits.syllables), limits.paths)
  {
    assert chunks[..i + 1][..i] == chunks[..i];
  }

  method Segment(table: Table, limits: Limits, chunks: seq<Bytes>, boundary: bool) returns (r: seq<Path>)
    ensures r == if Usable(limits, Joined(chunks)) then Staged(table, limits, boundary, chunks) else []
  {
    var text := JoinChunks(chunks);
    if text == [] || |text| > limits.letters || limits.paths == 0 || limits.syllables == 0 {
      return [];
    }
    r := [[]];
    for i := 0 to |chunks|
      invariant r == Staged(table, limits, boundary, chunks[..i])
    {
      StagedNext(table, limits, boundary, chunks, i);
      var paths := SegmentChunk(table, limits, chunks[i], boundary);
      if paths == [] {
        NoTails(r, paths);
        StagedEmpty(table, limits, boundary, chunks, i + 1);
        return [];
      }
      r := Combine(r, paths, limits.syllables, limits.paths);
      if r == [] {
        StagedEmpty(table, limits, boundary, chunks, i + 1);
        return [];
      }
    }
    assert chunks[..|chunks|] == chunks;
  }

  lemma {:induction false} JoinedAppend(a: Path, b: Path)
    ensures Joined(a + b) == Joined(a) + Joined(b)
  {
    if a == [] {
      assert a + b == b;
    } else {
      assert (a + b)[0] == a[0] && (a + b)[1..] == a[1..] + b;
      JoinedAppend(a[1..], b);
    }
  }

  lemma JoinedOne(a: Bytes)
    ensures Joined([a]) == a
  {
    assert [a][1..] == [];
  }

  method JoinChunks(chunks: seq<Bytes>) returns (text: Bytes)
    ensures text == Joined(chunks)
  {
    text := [];
    for i := 0 to |chunks|
      invariant text == Joined(chunks[..i])
    {
      assert chunks[..i + 1] == chunks[..i] + [chunks[i]];
      JoinedAppend(chunks[..i], [chunks[i]]);
      JoinedOne(chunks[i]);
      text := text + chunks[i];
    }
    assert chunks[..|chunks|] == chunks;
  }

  // --- What the segmentation is ----------------------------------------------

  ghost predicate TableOk(table: Table) {
    forall s | s in table.syllables :: |s| <= table.longest
  }

  ghost function ChunkLists(table: Table, limits: Limits, boundary: bool, chunks: seq<Bytes>): (r: seq<seq<Path>>) {
    seq(|chunks|, i requires 0 <= i < |chunks| => ChunkAll(table, limits, boundary, chunks[i]))
  }

  lemma ChunkListsFront(table: Table, limits: Limits, boundary: bool, chunks: seq<Bytes>)
    requires chunks != []
    ensures var lists := ChunkLists(table, limits, boundary, chunks);
            && lists[..|lists| - 1] == ChunkLists(table, limits, boundary, chunks[..|chunks| - 1])
            && lists[|lists| - 1] == ChunkAll(table, limits, boundary, chunks[|chunks| - 1])
  {
  }

  /** The path spells the text in syllables of the table. */
  ghost predicate Spelled(table: Table, text: Bytes, path: Path) {
    Joined(path) == text && forall i | 0 <= i < |path| :: Listed(table, path[i])
  }

  lemma {:induction false} SpelledLength(table: Table, text: Bytes, path: Path)
    requires Spelled(table, text, path)
    ensures |path| <= |text|
    decreases |path|
  {
    if path != [] {
      assert Listed(table, path[0]);
      assert forall i | 0 <= i < |path[1..]| :: path[1..][i] == path[i + 1];
      SpelledLength(table, Joined(path[1..]), path[1..]);
    }
  }

  lemma ChunkSpelled(table: Table, limits: Limits, boundary: bool, chunk: Bytes, path: Path)
    requires TableOk(table) && path in ChunkAll(table, limits, boundary, chunk)
    ensures Spelled(table, chunk, path)
  {
    if boundary && chunk in table.syllables {
      JoinedOne(chunk);
    } else {
      SearchIsExact(table, chunk, limits.syllables, path);
    }
  }

  /** A path put together from paths of the chunks spells the whole text. */
  lemma {:induction false} PickSpelled(table: Table, limits: Limits, boundary: bool, chunks: seq<Bytes>, path: Path)
    requires TableOk(table) && Picks(ChunkLists(table, limits, boundary, chunks), path)
    ensures Spelled(table, Joined(chunks), path)
  {
    if chunks != [] {
      var before, last := chunks[..|chunks| - 1], chunks[|chunks| - 1];
      ChunkListsFront(table, limits, boundary, chunks);
      var front, tail :| tail in ChunkAll(table, limits, boundary, last)
                         && Picks(ChunkLists(table, limits, boundary, before), front) && path == front + tail;
      PickSpelled(table, limits, boundary, before, front);
      ChunkSpelled(table, limits, boundary, last, tail);
      JoinedAppend(front, tail);
      assert chunks == before + [last];
      JoinedAppend(before, [last]);
      JoinedOne(last);
    }
  }

  lemma CutMember<T>(items: seq<T>, limit: nat, item: T)
    requires item in Cut(items, limit)
    ensures item in items
  {
  }

  /** Every path returned consists of paths of the chunks, so it respects the boundaries
      and spells the text, within the syllable limit. */
  lemma {:induction false} SegmentIsSound(table: Table, limits: Limits, boundary: bool, chunks: seq<Bytes>, path: Path)
    requires TableOk(table) && path in Staged(table, limits, boundary, chunks)
    ensures Picks(ChunkLists(table, limits, boundary, chunks), path)
    ensures Spelled(table, Joined(chunks), path) && |path| <= limits.syllables
  {
    if chunks != [] {
      var before, last := chunks[..|chunks| - 1], chunks[|chunks| - 1];
      ChunkListsFront(table, limits, boundary, chunks);
      var fronts, tails := Staged(table, limits, boundary, before), ChunkPaths(table, limits, boundary, last);
      CutMember(Fitting(Product(fronts, tails), limits.syllables), limits.paths, path);
      FittingMembers(Product(fronts, tails), limits.syllables, path);
      ProductMembers(fronts, tails, path);
      var front, tail :| front in fronts && tail in tails && path == front + tail;
      SegmentIsSound(table, limits, boundary, before, front);
      CutMember(ChunkAll(table, limits, boundary, last), limits.paths, tail);
    }
    PickSpelled(table, limits, boundary, chunks, path);
  }

  /** When the text has no more letters than a path may have syllables, so that the
      syllable limit cannot bind, the result is exactly the front of the product of all
      paths of all chunks: the caps after each chunk lose nothing before their place. */
  lemma {:induction false} SegmentIsFrontOfProduct(table: Table, limits: Limits, boundary: bool, chunks: seq<Bytes>)
    requires TableOk(table) && limits.paths > 0
    requires |Joined(chunks)| <= limits.syllables && |Joined(chunks)| <= limits.letters
    ensures Staged(table, limits, boundary, chunks)
         == Cut(Products(ChunkLists(table, limits, boundary, chunks)), limits.paths)
  {
    if chunks != [] {
      var before, last := chunks[..|chunks| - 1], chunks[|chunks| - 1];
      ChunkListsFront(table, limits, boundary, chunks);
      assert chunks == before + [last];
      JoinedAppend(before, [last]);
      JoinedOne(last);
      SegmentIsFrontOfProduct(table, limits, boundary, before);
      var fronts, tails := Products(ChunkLists(table, limits, boundary, before)),
          ChunkAll(table, limits, boundary, last);
      var cut := Product(Cut(fronts, limits.paths), Cut(tails, limits.paths));
      forall path | path in cut ensures |path| <= limits.syllables {
        CutPathFits(table, limits, boundary, chunks, path);
      }
      AllFit(cut, limits.syllables);
      CutProduct(fronts, tails, limits.paths);
    }
  }

  lemma CutPathFits(table: Table, limits: Limits, boundary: bool, chunks: seq<Bytes>, path: Path)
    requires TableOk(table) && |Joined(chunks)| <= limits.syllables && chunks != []
    requires var n := |chunks| - 1;
             path in Product(Cut(Products(ChunkLists(table, limits, boundary, chunks[..n])), limits.paths),
                             Cut(ChunkAll(table, limits, boundary, chunks[n]), limits.paths))
    ensures |path| <= limits.syllables
  {
    var n := |chunks| - 1;
    var fronts, tails := Products(ChunkLists(table, limits, boundary, chunks[..n])),
        ChunkAll(table, limits, boundary, chunks[n]);
    ProductMembers(Cut(fronts, limits.paths), Cut(tails, limits.paths), path);
    var front, tail :| front in Cut(fronts, limits.paths) && tail in Cut(tails, limits.paths) && path == front + tail;
    CutMember(fronts, limits.paths, front);
    CutMember(tails, limits.paths, tail);
    ChunkListsFront(table, limits, boundary, chunks);
    ProductMembers(fronts, tails, path);
    ProductsArePicks(ChunkLists(table, limits, boundary, chunks), path);
    PickSpelled(table, limits, boundary, chunks, path);
    SpelledLength(table, Joined(chunks), path);
  }

  lemma {:induction false} FittingSize(paths: seq<Path>, longest: nat)
    ensures |Fitting(paths, longest)| <= |paths|
  {
    if paths != [] {
      FittingSize(paths[1..], longest);
    }
  }

  lemma {:induction false} LongFrontsNeverFit(front: Path, tails: seq<Path>, longest: nat)
    requires |front| > longest
    ensures Fitting(Each(front, tails), longest) == []
  {
    if tails != [] {
      assert Each(front, tails)[1..] == Each(front, tails[1..]);
      LongFrontsNeverFit(front, tails[1..], longest);
    }
  }

  /** Dropping the fronts that are too long already drops no combination that fits. */
  lemma {:induction false} FitEarly(fronts: seq<Path>, tails: seq<Path>, longest: nat)
    ensures Fitting(Product(Fitting(fronts, longest), tails), longest) == Fitting(Product(fronts, tails), longest)
  {
    if fronts != [] {
      var here, rest := Each(fronts[0], tails), fronts[1..];
      FitEarly(rest, tails, longest);
      FittingSplits(here, Product(rest, tails), longest);
      if |fronts[0]| > longest {
        LongFrontsNeverFit(fronts[0], tails, longest);
        assert Fitting(fronts, longest) == Fitting(rest, longest);
      } else {
        var kept := Fitting(rest, longest);
        assert Fitting(fronts, longest)[1..] == kept;
        FittingSplits(here, Product(kept, tails), longest);
      }
    }
  }

  lemma {:induction false} ProductWidth<T>(fronts: seq<seq<T>>, tails: seq<seq<T>>)
    requires fronts != []
    ensures |Product(fronts, tails)| >= |tails|
  {
  }

  /** When the product of all paths of all chunks is within the path limit, the result
      is every combination within the syllable limit. */
  lemma {:induction false} UncappedIsEverything(table: Table, limits: Limits, boundary: bool, chunks: seq<Bytes>)
    requires |Joined(chunks)| <= limits.letters
    requires 0 < limits.paths && |Products(ChunkLists(table, limits, boundary, chunks))| <= limits.paths
    ensures Staged(table, limits, boundary, chunks)
         == Fitting(Products(ChunkLists(table, limits, boundary, chunks)), limits.syllables)
  {
    if chunks != [] {
      var before, last := chunks[..|chunks| - 1], chunks[|chunks| - 1];
      ChunkListsFront(table, limits, boundary, chunks);
      assert chunks == before + [last];
      JoinedAppend(before, [last]);
      JoinedOne(last);
      var fronts, tails := Products(ChunkLists(table, limits, boundary, before)),
          ChunkAll(table, limits, boundary, last);
      if tails == [] {
        NoTails(fronts, tails);
        NoTails(Staged(table, limits, boundary, before), tails);
      } else {
        ProductSize(fronts, tails);
        UncappedIsEverything(table, limits, boundary, before);
        UncappedStep(fronts, tails, limits);
      }
    }
  }

  lemma UncappedStep(fronts: seq<Path>, tails: seq<Path>, limits: Limits)
    requires |Product(fronts, tails)| <= limits.paths
    ensures Cut(Fitting(Product(Fitting(fronts, limits.syllables), Cut(tails, limits.paths)), limits.syllables),
                limits.paths)
         == Fitting(Product(fronts, tails), limits.syllables)
  {
    if fronts != [] {
      ProductWidth(fronts, tails);
      FitEarly(fronts, tails, limits.syllables);
      FittingSize(Product(fronts, tails), limits.syllables);
    }
  }

  const ODD_TABLE := Table({[1, 2], [3], [4], [1], [2, 3, 4]}, 3)
  const TIGHT := Limits(10, 1, 3)

  /** The first path begins with the longest syllable from which the rest can be spelled. */
  lemma {:induction false} FirstPath(table: Table, text: Bytes, limit: nat, length: nat, k: nat)
    requires limit > 0 && 0 < k <= length <= |text| && length <= table.longest
    requires text[..k] in table.syllables && All(table, text[k..], limit - 1) != []
    requires forall j | k < j <= length :: text[..j] !in table.syllables
    ensures var from := From(table, text, limit, length);
            from != [] && from[0] == [text[..k]] + All(table, text[k..], limit - 1)[0]
  {
    if k < length {
      FirstPath(table, text, limit, length - 1, k);
      assert text[..length] !in table.syllables;
    }
  }

  /** The first path of the chunk 1234 takes three syllables, though two would do. */
  lemma FirstPathIsLong()
    ensures var all := All(ODD_TABLE, [1, 2, 3, 4], 3); all != [] && all[0] == [[1, 2], [3], [4]]
  {
    var a: Bytes, b: Bytes, c: Bytes := [1, 2, 3, 4], [3, 4], [4];
    assert c[..1] == [4] && b[..1] == [3] && b[1..] == c && a[..2] == [1, 2] && a[2..] == b;
    assert b[..2][0] == 3 && a[..3][0] == 1;
    FirstPath(ODD_TABLE, c, 1, 1, 1);
    FirstPath(ODD_TABLE, b, 2, 2, 1);
    FirstPath(ODD_TABLE, a, 3, 3, 2);
  }

  lemma StagedOne(table: Table, limits: Limits, chunk: Bytes, path: Path)
    requires ChunkPaths(table, limits, true, chunk) == [path] && |path| <= limits.syllables && limits.paths > 0
    ensures Staged(table, limits, true, [chunk]) == [path]
  {
    assert [chunk][..0] == [];
    OneProduct([], path);
    assert [] + path == path;
    AllFit([path], limits.syllables);
  }

  lemma StagedTooLong(table: Table, limits: Limits, a: Bytes, b: Bytes, path: Path, tail: Path)
    requires Staged(table, limits, true, [a]) == [path] && ChunkPaths(table, limits, true, b) == [tail]
    requires |path| + |tail| > limits.syllables
    ensures Staged(table, limits, true, [a, b]) == []
  {
    assert [a, b][..1] == [a];
    OneProduct(path, tail);
    assert [path + tail][1..] == [];
    assert Fitting([path + tail], limits.syllables) == [];
    assert [a, b][1] == b;
  }

  lemma PicksTwo(table: Table, limits: Limits, a: Bytes, b: Bytes, front: Path, tail: Path)
    requires front in ChunkAll(table, limits, true, a) && tail in ChunkAll(table, limits, true, b)
    ensures Picks(ChunkLists(table, limits, true, [a, b]), front + tail)
  {
    var lists, start: Path := ChunkLists(table, limits, true, [a, b]), [];
    assert Picks(lists[..1][..0], start) && front == start + front;
    assert Picks(lists[..1], front);
  }

  lemma NothingIsLeft()
    ensures Staged(ODD_TABLE, TIGHT, true, [[1, 2, 3, 4], [1]]) == []
  {
    var a: Bytes, b: Bytes, first: Path := [1, 2, 3, 4], [1], [[1, 2], [3], [4]];
    FirstPathIsLong();
    assert |a| == 4 && a !in ODD_TABLE.syllables && b in ODD_TABLE.syllables;
    StagedOne(ODD_TABLE, TIGHT, a, first);
    StagedTooLong(ODD_TABLE, TIGHT, a, b, first, [b]);
  }

  lemma OtherPathFits()
    ensures Picks(ChunkLists(ODD_TABLE, TIGHT, true, [[1, 2, 3, 4], [1]]), [[1], [2, 3, 4], [1]])
  {
    var a: Bytes, b: Bytes, second: Path := [1, 2, 3, 4], [1], [[1], [2, 3, 4]];
    assert Joined(second) == a by {
      JoinedOne([2, 3, 4]);
      assert second[1..] == [[2, 3, 4]];
    }
    assert |a| == 4 && a !in ODD_TABLE.syllables && b in ODD_TABLE.syllables;
    SearchIsExact(ODD_TABLE, a, 3, second);
    PicksTwo(ODD_TABLE, TIGHT, a, b, second, [b]);
    assert second + [b] == [[1], [2, 3, 4], [1]];
  }

  lemma OddTableIsOk()
    ensures TableOk(ODD_TABLE)
  {
  }

  /** Where the syllable limit binds, a cap may lose every path: the one kept for the
      first chunk leaves no room for the second, though another one would. */
  lemma SyllableLimitLosesPaths()
    ensures TableOk(ODD_TABLE)
    ensures Usable(TIGHT, Joined([[1, 2, 3, 4], [1]]))
    ensures Staged(ODD_TABLE, TIGHT, true, [[1, 2, 3, 4], [1]]) == []
    ensures Picks(ChunkLists(ODD_TABLE, TIGHT, true, [[1, 2, 3, 4], [1]]), [[1], [2, 3, 4], [1]])
  {
    JoinedOne([1]);
    assert [[1, 2, 3, 4], [1]][1..] == [[1]];
    OddTableIsOk();
    NothingIsLeft();
    OtherPathFits();
  }
}
