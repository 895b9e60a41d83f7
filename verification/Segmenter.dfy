/** Splitting a run of letters into syllables (engine/src/phrase_engine.cpp): a
    depth-first search that tries longer syllables first and stops at a limit. The
    run is normalised, and the syllable table is a parameter. */
module Segmenter {
  import opened Order

  type Path = seq<Bytes>

  /** `longest` is the length of the longest syllable of the table. */
  datatype Table = Table(syllables: set<Bytes>, longest: nat)

  datatype Limits = Limits(letters: nat, paths: nat, syllables: nat)

  // --- Segmentations ---------------------------------------------------------

  ghost function Joined(path: Path): (r: Bytes) {
    if path == [] then [] else path[0] + Joined(path[1..])
  }

  /** The path spells the text in syllables of the table, within the limit. */
  ghost predicate Segments(table: Table, text: Bytes, limit: nat, path: Path) {
    && Joined(path) == text && |path| <= limit
    && forall i | 0 <= i < |path| :: Listed(table, path[i])
  }

  predicate Listed(table: Table, syllable: Bytes) {
    1 <= |syllable| <= table.longest && syllable in table.syllables
  }

  /** Longest first: where two paths part, the first one has the longer syllable. */
  ghost predicate Before(p: Path, q: Path) {
    exists k | 0 <= k < |p| && k < |q| :: p[..k] == q[..k] && |p[k]| > |q[k]|
  }

  // --- The search as a list --------------------------------------------------

  /** Every path with a common beginning in front. */
  function Under(front: Path, paths: seq<Path>): (r: seq<Path>)
    ensures |r| == |paths| && forall i | 0 <= i < |r| :: r[i] == front + paths[i]
  {
    seq(|paths|, i requires 0 <= i < |paths| => front + paths[i])
  }

  /** All segmentations, in the order the search visits them. */
  ghost function All(table: Table, text: Bytes, limit: nat): (r: seq<Path>)
    decreases |text|, table.longest + 1
  {
    if text == [] then [[]]
    else if limit == 0 then []
    else From(table, text, limit, if table.longest < |text| then table.longest else |text|)
  }

  /** Those whose first syllable has at most a given length. */
  ghost function From(table: Table, text: Bytes, limit: nat, length: nat): (r: seq<Path>)
    requires length <= |text| && length <= table.longest && limit > 0
    decreases |text|, length
  {
    if length == 0 then []
    else Starting(table, text, limit, length) + From(table, text, limit, length - 1)
  }

  ghost function Starting(table: Table, text: Bytes, limit: nat, length: nat): (r: seq<Path>)
    requires 0 < length <= |text| && limit > 0
    decreases |text|, 0
  {
    if text[..length] in table.syllables
    then Under([text[..length]], All(table, text[length..], limit - 1))
    else []
  }

  // --- The list is exact -----------------------------------------------------

  lemma JoinedCons(syllable: Bytes, path: Path)
    ensures Joined([syllable] + path) == syllable + Joined(path)
  {
    assert ([syllable] + path)[1..] == path;
  }

  lemma {:induction false} AllSegments(table: Table, text: Bytes, limit: nat)
    ensures forall path | path in All(table, text, limit) :: Segments(table, text, limit, path)
    decreases |text|, table.longest + 1
  {
    if text != [] && limit > 0 {
      FromSegments(table, text, limit, if table.longest < |text| then table.longest else |text|);
    }
  }

  lemma {:induction false} FromSegments(table: Table, text: Bytes, limit: nat, length: nat)
    requires length <= |text| && length <= table.longest && limit > 0
    ensures forall path | path in From(table, text, limit, length) ::
              Segments(table, text, limit, path) && path != [] && |path[0]| <= length
    decreases |text|, length
  {
    if length > 0 {
      StartingSegments(table, text, limit, length);
      FromSegments(table, text, limit, length - 1);
    }
  }

  lemma {:induction false} StartingSegments(table: Table, text: Bytes, limit: nat, length: nat)
    requires 0 < length <= |text| && length <= table.longest && limit > 0
    ensures forall path | path in Starting(table, text, limit, length) ::
              Segments(table, text, limit, path) && path != [] && path[0] == text[..length]
    decreases |text|, 0
  {
    if text[..length] in table.syllables {
      var rest := All(table, text[length..], limit - 1);
      AllSegments(table, text[length..], limit - 1);
      forall path | path in Starting(table, text, limit, length)
        ensures Segments(table, text, limit, path) && path != [] && path[0] == text[..length]
      {
        var i :| 0 <= i < |rest| && path == [text[..length]] + rest[i];
        assert rest[i] in rest;
        JoinedCons(text[..length], rest[i]);
      }
    }
  }

  lemma {:induction false} SegmentsListed(table: Table, text: Bytes, limit: nat, path: Path)
    requires Segments(table, text, limit, path)
    ensures path in All(table, text, limit)
    decreases |path|
  {
    if path != [] {
      var first, rest := path[0], path[1..];
      assert Listed(table, first) && path == [first] + rest;
      assert text[..|first|] == first && text[|first|..] == Joined(rest);
      assert forall i | 0 <= i < |rest| :: Listed(table, rest[i]) by {
        assert forall i | 0 <= i < |rest| :: rest[i] == path[i + 1];
      }
      SegmentsListed(table, text[|first|..], limit - 1, rest);
      var all := All(table, text[|first|..], limit - 1);
      var i :| 0 <= i < |all| && all[i] == rest;
      assert Under([first], all)[i] == path;
      StartingInFrom(table, text, limit, if table.longest < |text| then table.longest else |text|, |first|, path);
    }
  }

  lemma {:induction false} StartingInFrom(table: Table, text: Bytes, limit: nat, length: nat, n: nat, path: Path)
    requires 0 < n <= length <= |text| && length <= table.longest && limit > 0
    requires path in Starting(table, text, limit, n)
    ensures path in From(table, text, limit, length)
    decreases length
  {
    if n < length {
      StartingInFrom(table, text, limit, length - 1, n, path);
    }
  }

  /** The search list holds exactly the segmentations. */
  lemma SearchIsExact(table: Table, text: Bytes, limit: nat, path: Path)
    ensures path in All(table, text, limit) <==> Segments(table, text, limit, path)
  {
    AllSegments(table, text, limit);
    if Segments(table, text, limit, path) {
      SegmentsListed(table, text, limit, path);
    }
  }

  // --- The list is in order --------------------------------------------------

  ghost predicate InOrder(paths: seq<Path>) {
    forall i, j | 0 <= i < j < |paths| :: Before(paths[i], paths[j])
  }

  lemma UnderInOrder(first: Bytes, paths: seq<Path>)
    requires InOrder(paths)
    ensures InOrder(Under([first], paths))
  {
    var r := Under([first], paths);
    forall i, j | 0 <= i < j < |r| ensures Before(r[i], r[j]) {
      assert Before(paths[i], paths[j]);
      var k :| 0 <= k < |paths[i]| && k < |paths[j]| && paths[i][..k] == paths[j][..k] && |paths[i][k]| > |paths[j][k]|;
      assert r[i][..k + 1] == [first] + paths[i][..k] && r[j][..k + 1] == [first] + paths[j][..k];
      assert |r[i][k + 1]| > |r[j][k + 1]|;
    }
  }

  /** The search visits longer first syllables first, at every place of the path, and
      no path twice. */
  lemma {:induction false} SearchIsInOrder(table: Table, text: Bytes, limit: nat)
    ensures InOrder(All(table, text, limit))
    decreases |text|, table.longest + 1
  {
    if text != [] && limit > 0 {
      FromInOrder(table, text, limit, if table.longest < |text| then table.longest else |text|);
    }
  }

  lemma {:induction false} FromInOrder(table: Table, text: Bytes, limit: nat, length: nat)
    requires length <= |text| && length <= table.longest && limit > 0
    ensures InOrder(From(table, text, limit, length))
    decreases |text|, length
  {
    if length > 0 {
      var a, b := Starting(table, text, limit, length), From(table, text, limit, length - 1);
      if text[..length] in table.syllables {
        SearchIsInOrder(table, text[length..], limit - 1);
        UnderInOrder(text[..length], All(table, text[length..], limit - 1));
      }
      FromInOrder(table, text, limit, length - 1);
      StartingSegments(table, text, limit, length);
      FromSegments(table, text, limit, length - 1);
      forall p, q | p in a && q in b ensures Before(p, q) {
        assert p[..0] == q[..0] && |p[0]| > |q[0]|;
      }
      ConcatInOrder(a, b);
    }
  }

  lemma ConcatInOrder(a: seq<Path>, b: seq<Path>)
    requires InOrder(a) && InOrder(b) && forall p, q | p in a && q in b :: Before(p, q)
    ensures InOrder(a + b)
  {
  }

  /** A listing in order lists no path twice. */
  lemma InOrderListsOnce(paths: seq<Path>)
    requires InOrder(paths)
    ensures forall i, j | 0 <= i < j < |paths| :: paths[i] != paths[j]
  {
    forall i, j | 0 <= i < j < |paths| ensures paths[i] != paths[j] {
      assert Before(paths[i], paths[j]);
    }
  }

  // --- The search ------------------------------------------------------------

  function Cut<T>(items: seq<T>, limit: nat): (r: seq<T>) {
    if |items| <= limit then items else items[..limit]
  }

  lemma CutTwice<T>(a: seq<T>, b: seq<T>, c: seq<T>, limit: nat)
    ensures Cut(Cut(a + b, limit) + c, limit) == Cut(a + (b + c), limit)
  {
    assert a + (b + c) == (a + b) + c;
  }

  lemma UnderConcat(front: Path, a: seq<Path>, b: seq<Path>)
    ensures Under(front, a + b) == Under(front, a) + Under(front, b)
  {
  }

  lemma UnderUnder(front: Path, syllable: Bytes, paths: seq<Path>)
    ensures Under(front, Under([syllable], paths)) == Under(front + [syllable], paths)
  {
    forall i | 0 <= i < |paths| ensures front + ([syllable] + paths[i]) == (front + [syllable]) + paths[i] {
    }
  }

  /** What is found so far, continued by everything still to be tried at one place. */
  ghost function Expected(table: Table, rest: Bytes, limit: nat, length: nat, front: Path, found: seq<Path>,
                          enough: nat)
    : (r: seq<Path>)
    requires length <= |rest| && length <= table.longest && limit > 0
  {
    Cut(found + Under(front, From(table, rest, limit, length)), enough)
  }

  /** Trying one length leaves as much to expect as before. */
  lemma TryLength(table: Table, rest: Bytes, limit: nat, length: nat, front: Path, found: seq<Path>, enough: nat,
                  after: seq<Path>)
    requires 0 < length <= |rest| && length <= table.longest && limit > 0 && |found| <= enough
    requires after == if rest[..length] in table.syllables
                      then Cut(found + Under(front + [rest[..length]], All(table, rest[length..], limit - 1)), enough)
                      else found
    ensures Expected(table, rest, limit, length - 1, front, after, enough)
         == Expected(table, rest, limit, length, front, found, enough)
  {
    var here, later := Starting(table, rest, limit, length), From(table, rest, limit, length - 1);
    UnderConcat(front, here, later);
    CutTwice(found, Under(front, here), Under(front, later), enough);
    if rest[..length] in table.syllables {
      UnderUnder(front, rest[..length], All(table, rest[length..], limit - 1));
    } else {
      assert found + Under(front, here) == found;
    }
  }

  /** Nothing more is expected once nothing is left to try or enough is found. */
  lemma NothingMore(table: Table, rest: Bytes, limit: nat, length: nat, front: Path, found: seq<Path>, enough: nat)
    requires length <= |rest| && length <= table.longest && limit > 0 && |found| <= enough
    requires length == 0 || |found| == enough
    ensures Expected(table, rest, limit, length, front, found, enough) == found
  {
  }

  class Search {
    const table: Table
    const limits: Limits
    const text: Bytes
    var paths: seq<Path>
    var current: Path

    constructor (table: Table, limits: Limits, text: Bytes)
      ensures this.table == table && this.limits == limits && this.text == text && paths == [] && current == []
    {
      this.table, this.limits, this.text := table, limits, text;
      paths, current := [], [];
    }

    /** Continues the current path from an offset in every way, longest syllable first,
        until enough paths are found. */
    method Visit(offset: nat)
      requires offset <= |text| && |paths| <= limits.paths && |current| <= limits.syllables
      modifies this
      ensures current == old(current) && |paths| <= limits.paths
      ensures paths == Cut(old(paths) + Under(old(current),
                                              All(table, text[offset..], limits.syllables - |old(current)|)),
                           limits.paths)
      decreases |text| - offset, 1
    {
      if |paths| >= limits.paths {
        return;
      }
      ghost var rest, limit := text[offset..], limits.syllables - |current|;
      if offset == |text| {
        assert Under(current, [[]])[0] == current;
        paths := paths + [current];
        return;
      }
      if |current| >= limits.syllables {
        return;
      }
      var length: nat := if table.longest < |text| - offset then table.longest else |text| - offset;
      ghost var goal := Expected(table, rest, limit, length, current, paths, limits.paths);
      while length > 0
        invariant length <= |rest| && length <= table.longest
        invariant current == old(current) && |paths| <= limits.paths
        invariant Expected(table, rest, limit, length, current, paths, limits.paths) == goal
      {
        ghost var before := paths;
        TryOne(offset, length);
        assert text[offset..offset + length] == rest[..length] && text[offset + length..] == rest[length..];
        TryLength(table, rest, limit, length, current, before, limits.paths, paths);
        length := length - 1;
        if |paths| >= limits.paths {
          break;
        }
      }
      NothingMore(table, rest, limit, length, current, paths, limits.paths);
    }

    /** Continues with the syllable of one length, if there is one. */
    method TryOne(offset: nat, length: nat)
      requires offset < |text| && 0 < length <= |text| - offset
      requires |paths| <= limits.paths && |current| < limits.syllables
      modifies this
      ensures current == old(current) && |paths| <= limits.paths
      ensures var syllable := text[offset..offset + length];
              paths == if syllable in table.syllables
                       then Cut(old(paths) + Under(current + [syllable],
                                                   All(table, text[offset + length..],
                                                       limits.syllables - |current| - 1)),
                                limits.paths)
                       else old(paths)
      decreases |text| - offset, 0
    {
      if text[offset..offset + length] in table.syllables {
        current := current + [text[offset..offset + length]];
        Visit(offset + length);
        current := current[..|current| - 1];
      }
    }
  }

  /** The cut list holds segmentations only, each once, longest first; one it leaves out
      comes after all it holds, and only when it is full. */
  lemma CutKeepsTheFirst(table: Table, text: Bytes, limit: nat, enough: nat, path: Path)
    ensures var r := Cut(All(table, text, limit), enough);
            && |r| <= enough && InOrder(r) && (path in r ==> Segments(table, text, limit, path))
            && (forall i, j | 0 <= i < j < |r| :: r[i] != r[j])
            && (Segments(table, text, limit, path) && path !in r ==>
                  |r| == enough && forall p | p in r :: Before(p, path))
  {
    var all := All(table, text, limit);
    var r := Cut(all, enough);
    SearchIsExact(table, text, limit, path);
    SearchIsInOrder(table, text, limit);
    InOrderListsOnce(r);
    if Segments(table, text, limit, path) && path !in r {
      var j :| 0 <= j < |all| && all[j] == path;
      assert forall i | 0 <= i < |r| :: all[i] == r[i] && r[i] in r;
      assert j >= |r|;
      forall p | p in r ensures Before(p, path) {
        var i :| 0 <= i < |r| && r[i] == p;
        assert all[i] == p;
      }
    }
  }

  /** The first segmentations of a run of letters, longest first; a syllable between
      explicit boundaries stays whole. */
  method SegmentChunk(table: Table, limits: Limits, text: Bytes, boundary: bool) returns (r: seq<Path>)
    ensures text == [] || |text| > limits.letters || limits.paths == 0 || limits.syllables == 0 ==> r == []
    ensures text != [] && |text| <= limits.letters && limits.paths > 0 && limits.syllables > 0 ==>
              r == if boundary && text in table.syllables then [[text]]
                   else Cut(All(table, text, limits.syllables), limits.paths)
  {
    if text == [] || |text| > limits.letters || limits.paths == 0 || limits.syllables == 0 {
      return [];
    }
    if boundary && text in table.syllables {
      return [[text]];
    }
    var search := new Search(table, limits, text);
    search.Visit(0);
    assert text[0..] == text;
    ghost var all := All(table, text, limits.syllables);
    assert forall i | 0 <= i < |all| :: Under([], all)[i] == all[i];
    assert [] + Under([], all) == all;
    return search.paths;
  }
}
