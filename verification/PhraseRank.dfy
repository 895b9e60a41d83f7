/** Ranking and the first-page quota of PhraseIndex::Query
    (engine/src/phrase_engine.cpp). */
module PhraseRank {
  import opened Order

  datatype Origin = Base | Public | History | Imported | Personal

  datatype MatchKind = Initials | FullPrefix | ExactFull

  datatype Candidate = Candidate(
    id: Bytes, text: Bytes, pinyin: Bytes, origin: Origin, kind: MatchKind,
    uses: nat, weight: int, pinned: bool, score: int, syllables: seq<Bytes>)

  predicate PersonalOrigin(origin: Origin) {
    origin == Personal || origin == History || origin == Imported
  }

  predicate IsPersonal(c: Candidate) {
    PersonalOrigin(c.origin)
  }

  function OriginTier(c: Candidate): (r: int) {
    if c.pinned && IsPersonal(c) then 3 else if IsPersonal(c) then 2 else if c.origin == Public then 1 else 0
  }

  function MatchTier(k: MatchKind): (r: int) {
    match k
    case ExactFull => 2
    case FullPrefix => 1
    case Initials => 0
  }

  // --- The nine-key order ----------------------------------------------------

  /** The comparator. */
  predicate Precedes(l: Candidate, r: Candidate) {
    if (l.kind == ExactFull || r.kind == ExactFull) && l.kind != r.kind then l.kind == ExactFull
    else if OriginTier(l) != OriginTier(r) then OriginTier(l) > OriginTier(r)
    else if MatchTier(l.kind) != MatchTier(r.kind) then MatchTier(l.kind) > MatchTier(r.kind)
    else if l.score != r.score then l.score > r.score
    else if l.uses != r.uses then l.uses > r.uses
    else if l.weight != r.weight then l.weight > r.weight
    else if l.pinyin != r.pinyin then Less(l.pinyin, r.pinyin)
    else if l.text != r.text then Less(l.text, r.text)
    else Less(l.id, r.id)
  }

  /** The same order as nine keys compared one after the other. */
  ghost function Numbers(c: Candidate): (r: seq<int>) {
    [if c.kind == ExactFull then 0 else 1, -OriginTier(c), -MatchTier(c.kind), -c.score, 0 - c.uses, -c.weight]
  }

  ghost function Ranks(l: Candidate, r: Candidate): (o: int) {
    if Numbers(l) != Numbers(r) then Compare(Numbers(l), Numbers(r))
    else if l.pinyin != r.pinyin then Compare(l.pinyin, r.pinyin)
    else if l.text != r.text then Compare(l.text, r.text)
    else Compare(l.id, r.id)
  }

  lemma SixNumbers(a: seq<int>, b: seq<int>)
    requires |a| == |b| == 6
    ensures Compare(a, b) < 0 <==>
            (a[0] < b[0] || (a[0] == b[0] && (a[1] < b[1] || (a[1] == b[1] && (a[2] < b[2] || (a[2] == b[2] &&
             (a[3] < b[3] || (a[3] == b[3] && (a[4] < b[4] || (a[4] == b[4] && a[5] < b[5]))))))))))
  {
    SkipHead(a, b);
    SkipHead(a[1..], b[1..]);
    SkipHead(a[2..], b[2..]);
    SkipHead(a[3..], b[3..]);
    SkipHead(a[4..], b[4..]);
    SkipHead(a[5..], b[5..]);
    assert a[1..][1..] == a[2..] && b[1..][1..] == b[2..];
    assert a[2..][1..] == a[3..] && b[2..][1..] == b[3..];
    assert a[3..][1..] == a[4..] && b[3..][1..] == b[4..];
    assert a[4..][1..] == a[5..] && b[4..][1..] == b[5..];
    assert a[5..][1..] == [] && b[5..][1..] == [];
  }

  lemma SkipHead(a: seq<int>, b: seq<int>)
    requires a != [] && b != []
    ensures Compare(a, b) < 0 <==> a[0] < b[0] || (a[0] == b[0] && Compare(a[1..], b[1..]) < 0)
  {
  }

  lemma PrecedesIsOrder(l: Candidate, r: Candidate)
    ensures Precedes(l, r) <==> Ranks(l, r) < 0
  {
    var a, b := Numbers(l), Numbers(r);
    SixNumbers(a, b);
    CompareAntisymmetric(a, b);
    assert a == b <==> a[0] == b[0] && a[1] == b[1] && a[2] == b[2] && a[3] == b[3] && a[4] == b[4] && a[5] == b[5];
  }

  lemma OrderAntisymmetric(l: Candidate, r: Candidate)
    ensures Ranks(l, r) == -Ranks(r, l)
    ensures Ranks(l, r) == 0 ==> l.id == r.id
  {
    CompareAntisymmetric(Numbers(l), Numbers(r));
    CompareAntisymmetric(l.pinyin, r.pinyin);
    CompareAntisymmetric(l.text, r.text);
    CompareAntisymmetric(l.id, r.id);
  }

  lemma SameIsZero(a: Candidate, b: Candidate)
    ensures Numbers(a) == Numbers(b) ==> Compare(Numbers(a), Numbers(b)) == 0
    ensures a.pinyin == b.pinyin ==> Compare(a.pinyin, b.pinyin) == 0
    ensures a.text == b.text ==> Compare(a.text, b.text) == 0
  {
    CompareAntisymmetric(Numbers(a), Numbers(b));
    CompareAntisymmetric(a.pinyin, b.pinyin);
    CompareAntisymmetric(a.text, b.text);
  }

  lemma OrderTransitive(a: Candidate, b: Candidate, c: Candidate)
    requires Ranks(a, b) < 0 && Ranks(b, c) < 0
    ensures Ranks(a, c) < 0
  {
    SameIsZero(a, b);
    SameIsZero(b, c);
    SameIsZero(a, c);
    if Numbers(a) != Numbers(c) || Numbers(a) != Numbers(b) {
      CompareTransitive(Numbers(a), Numbers(b), Numbers(c));
    } else if a.pinyin != b.pinyin || b.pinyin != c.pinyin {
      Chain(a.pinyin, b.pinyin, c.pinyin);
    } else if a.text != b.text || b.text != c.text {
      Chain(a.text, b.text, c.text);
    } else {
      Chain(a.id, b.id, c.id);
    }
  }

  lemma Chain(a: Bytes, b: Bytes, c: Bytes)
    requires Compare(a, b) <= 0 && Compare(b, c) <= 0
    ensures Compare(a, c) <= 0 && (Compare(a, b) < 0 || Compare(b, c) < 0 ==> Compare(a, c) < 0 && a != c)
    ensures Compare(a, b) == 0 && Compare(b, c) == 0 ==> a == b == c
  {
    CompareTransitive(a, b, c);
    CompareAntisymmetric(a, c);
    CompareAntisymmetric(a, b);
    CompareAntisymmetric(b, c);
  }

  /** The comparator is a strict order, total on candidates with different ids. */
  lemma RankingIsAnOrder(a: Candidate, b: Candidate, c: Candidate)
    ensures !(Precedes(a, b) && Precedes(b, a))
    ensures a.id != b.id ==> Precedes(a, b) || Precedes(b, a)
    ensures Precedes(a, b) && Precedes(b, c) ==> Precedes(a, c)
  {
    PrecedesIsOrder(a, b);
    PrecedesIsOrder(b, a);
    PrecedesIsOrder(b, c);
    PrecedesIsOrder(a, c);
    OrderAntisymmetric(a, b);
    if Precedes(a, b) && Precedes(b, c) {
      OrderTransitive(a, b, c);
    }
  }

  // --- Sorting ---------------------------------------------------------------

  ghost predicate Sorted(cs: seq<Candidate>) {
    forall i, j | 0 <= i < j < |cs| :: Precedes(cs[i], cs[j])
  }

  ghost predicate DistinctIds(cs: set<Candidate>) {
    forall a, b | a in cs && b in cs && a.id == b.id :: a == b
  }

  /** A set of candidates with distinct ids has one ranking, whatever order it is
      collected in. */
  lemma {:induction false} RankingUnique(a: seq<Candidate>, b: seq<Candidate>, all: set<Candidate>)
    requires Sorted(a) && Sorted(b) && DistinctIds(all)
    requires (forall c :: c in a <==> c in all) && (forall c :: c in b <==> c in all)
    ensures a == b
  {
    if a != [] {
      assert a[0] in b;
    }
    if b != [] {
      assert b[0] in a;
    }
    if a != [] && b != [] {
      RankingIsAnOrder(a[0], b[0], a[0]);
      assert a[0] == b[0];
      var rest := all - {a[0]};
      assert a == [a[0]] + a[1..] && b == [b[0]] + b[1..];
      forall c ensures (c in a[1..] <==> c in rest) && (c in b[1..] <==> c in rest) {
        assert c in a[1..] ==> Precedes(a[0], c);
        assert c in b[1..] ==> Precedes(b[0], c);
        RankingIsAnOrder(a[0], a[0], a[0]);
      }
      RankingUnique(a[1..], b[1..], rest);
    }
  }

  function InsertRanked(cs: seq<Candidate>, c: Candidate): (r: seq<Candidate>) {
    if cs == [] || Precedes(c, cs[0]) then [c] + cs else [cs[0]] + InsertRanked(cs[1..], c)
  }

  lemma {:induction false} InsertRankedLaw(cs: seq<Candidate>, c: Candidate)
    requires Sorted(cs) && forall x | x in cs :: x.id != c.id
    ensures Sorted(InsertRanked(cs, c)) && forall x :: x in InsertRanked(cs, c) <==> x == c || x in cs
  {
    if cs != [] {
      RankingIsAnOrder(c, cs[0], c);
      if Precedes(c, cs[0]) {
        forall i | 0 <= i < |cs| ensures Precedes(c, cs[i]) {
          RankingIsAnOrder(c, cs[0], cs[i]);
        }
      } else {
        InsertRankedLaw(cs[1..], c);
        var rest := InsertRanked(cs[1..], c);
        assert cs == [cs[0]] + cs[1..];
        forall i | 0 <= i < |rest| ensures Precedes(cs[0], rest[i]) {
          assert rest[i] == c || rest[i] in cs[1..];
        }
      }
    }
  }

  // --- The first-page quota --------------------------------------------------

  const FIRST_PAGE := 8
  const MAX_PERSONAL := 2

  function Personals(cs: seq<Candidate>): (r: nat) {
    if cs == [] then 0 else Personals(cs[..|cs| - 1]) + if IsPersonal(cs[|cs| - 1]) then 1 else 0
  }

  function Target(limit: nat): (r: nat) {
    if limit < FIRST_PAGE then limit else FIRST_PAGE
  }

  ghost predicate Fits(page: seq<Candidate>, c: Candidate, target: nat) {
    |page| < target && (IsPersonal(c) ==> Personals(page) < MAX_PERSONAL)
  }

  /** The first page: each candidate in rank order that still fits. */
  ghost function Page(ranked: seq<Candidate>, target: nat): (r: seq<Candidate>) {
    if ranked == [] then []
    else
      var page, c := Page(ranked[..|ranked| - 1], target), ranked[|ranked| - 1];
      if Fits(page, c, target) then page + [c] else page
  }

  /** The others, in rank order. */
  ghost function Others(ranked: seq<Candidate>, target: nat): (r: seq<Candidate>) {
    if ranked == [] then []
    else
      var front, c := ranked[..|ranked| - 1], ranked[|ranked| - 1];
      if Fits(Page(front, target), c, target) then Others(front, target) else Others(front, target) + [c]
  }

  ghost function Quota(ranked: seq<Candidate>, limit: nat): (r: seq<Candidate>) {
    var page, others := Page(ranked, Target(limit)), Others(ranked, Target(limit));
    if |page| < Target(limit) || limit <= |page| then page
    else page + if |others| <= limit - |page| then others else others[..limit - |page|]
  }

  lemma {:induction false} PageLaw(ranked: seq<Candidate>, target: nat)
    ensures |Page(ranked, target)| <= target && Personals(Page(ranked, target)) <= MAX_PERSONAL
    ensures multiset(Page(ranked, target)) + multiset(Others(ranked, target)) == multiset(ranked)
  {
    if ranked != [] {
      var front, c := ranked[..|ranked| - 1], ranked[|ranked| - 1];
      PageLaw(front, target);
      assert ranked == front + [c];
      var page := Page(front, target);
      assert (page + [c])[..|page|] == page;
    }
  }

  /** A page with room left leaves out personal candidates only. */
  lemma {:induction false} OthersArePersonal(ranked: seq<Candidate>, target: nat)
    requires |Page(ranked, target)| < target
    ensures forall c | c in Others(ranked, target) :: IsPersonal(c)
  {
    if ranked != [] {
      OthersArePersonal(ranked[..|ranked| - 1], target);
    }
  }

  lemma {:induction false} BestFirst(ranked: seq<Candidate>, target: nat)
    requires ranked != [] && target > 0
    ensures Page(ranked, target) != [] && Page(ranked, target)[0] == ranked[0]
  {
    if |ranked| > 1 {
      BestFirst(ranked[..|ranked| - 1], target);
    } else {
      assert ranked[..0] == [];
    }
  }

  /** The quota continues a full page with the others, as far as the limit goes. */
  lemma QuotaShape(ranked: seq<Candidate>, limit: nat) returns (k: nat)
    ensures var page, others := Page(ranked, Target(limit)), Others(ranked, Target(limit));
            && k <= |others| && Quota(ranked, limit) == page + others[..k] && |page| + k <= limit
            && (k > 0 ==> |page| == Target(limit) == FIRST_PAGE)
  {
    var target := Target(limit);
    var page, others := Page(ranked, target), Others(ranked, target);
    PageLaw(ranked, target);
    if |page| < target || limit <= |page| {
      k := 0;
    } else {
      k := if |others| <= limit - |page| then |others| else limit - |page|;
    }
  }

  lemma QuotaTakes(ranked: seq<Candidate>, limit: nat)
    ensures |Quota(ranked, limit)| <= limit && multiset(Quota(ranked, limit)) <= multiset(ranked)
  {
    var k := QuotaShape(ranked, limit);
    var page, others := Page(ranked, Target(limit)), Others(ranked, Target(limit));
    PageLaw(ranked, Target(limit));
    assert others == others[..k] + others[k..];
    assert multiset(others) == multiset(others[..k]) + multiset(others[k..]);
  }

  lemma QuotaOfPersonals(ranked: seq<Candidate>, limit: nat)
    ensures var r := Quota(ranked, limit); Personals(if |r| <= FIRST_PAGE then r else r[..FIRST_PAGE]) <= MAX_PERSONAL
  {
    var k := QuotaShape(ranked, limit);
    var page, r := Page(ranked, Target(limit)), Quota(ranked, limit);
    PageLaw(ranked, Target(limit));
    if k == 0 {
      assert r == page;
    } else {
      assert r[..FIRST_PAGE] == page;
    }
  }

  /** What the quota promises: at most `limit` candidates, none twice, the best first, and
      at most two personal ones among the first eight. */
  lemma QuotaLaw(ranked: seq<Candidate>, limit: nat)
    ensures var r := Quota(ranked, limit);
            && |r| <= limit
            && multiset(r) <= multiset(ranked)
            && Personals(if |r| <= FIRST_PAGE then r else r[..FIRST_PAGE]) <= MAX_PERSONAL
            && (ranked != [] && limit > 0 ==> r != [] && r[0] == ranked[0])
  {
    QuotaTakes(ranked, limit);
    QuotaOfPersonals(ranked, limit);
    if ranked != [] && limit > 0 {
      BestFirst(ranked, Target(limit));
    }
  }

  /** A page that is not full lacks nothing but personal candidates; a full one with room
      behind it continues with everything else. */
  lemma QuotaIsExhaustive(ranked: seq<Candidate>, limit: nat)
    ensures var r := Quota(ranked, limit);
            && (|r| < Target(limit) ==> forall c | c in ranked && c !in r :: IsPersonal(c))
            && (Target(limit) <= |r| < limit ==> multiset(r) == multiset(ranked))
  {
    var target := Target(limit);
    PageLaw(ranked, target);
    if |Page(ranked, target)| < target {
      OthersArePersonal(ranked, target);
      forall c | c in ranked && c !in Quota(ranked, limit) ensures IsPersonal(c) {
        assert c in multiset(ranked);
        assert c in multiset(Others(ranked, target));
      }
    }
  }

  /** The first `i` candidates have been considered for the page. */
  ghost predicate Filled(ranked: seq<Candidate>, flags: seq<bool>, page: seq<Candidate>, personal: nat, i: nat,
                         target: nat)
  {
    && i <= |ranked| == |flags| && page == Page(ranked[..i], target) && personal == Personals(page)
    && Flagged(ranked[..i], flags[..i], target) && forall k | i <= k < |ranked| :: !flags[k]
  }

  lemma FilledStep(ranked: seq<Candidate>, flags: seq<bool>, page: seq<Candidate>, personal: nat, i: nat, target: nat)
    requires Filled(ranked, flags, page, personal, i, target) && i < |ranked| && |page| < target
    ensures var c := ranked[i];
            if IsPersonal(c) && personal >= MAX_PERSONAL then Filled(ranked, flags, page, personal, i + 1, target)
            else Filled(ranked, flags[i := true], page + [c], personal + (if IsPersonal(c) then 1 else 0),
                        i + 1, target)
  {
    var c := ranked[i];
    assert ranked[..i + 1][..i] == ranked[..i];
    assert flags[..i + 1][..i] == flags[..i] && flags[i := true][..i + 1][..i] == flags[..i];
    assert (page + [c])[..|page|] == page;
  }

  /** The first loop: fills the page and flags what it takes. */
  method FillPage(ranked: seq<Candidate>, target: nat) returns (page: seq<Candidate>, selected: array<bool>)
    ensures fresh(selected) && selected.Length == |ranked|
    ensures page == Page(ranked, target) && Unflagged(ranked, selected[..]) == Others(ranked, target)
  {
    page := [];
    selected := new bool[|ranked|](_ => false);
    var personal := 0;
    var i := 0;
    while i < |ranked| && |page| < target
      invariant Filled(ranked, selected[..], page, personal, i, target)
    {
      FilledStep(ranked, selected[..], page, personal, i, target);
      if !(IsPersonal(ranked[i]) && personal >= MAX_PERSONAL) {
        if IsPersonal(ranked[i]) {
          personal := personal + 1;
        }
        page := page + [ranked[i]];
        ghost var flags := selected[..];
        selected[i] := true;
        assert selected[..] == flags[i := true];
      }
      i := i + 1;
    }
    FullPage(ranked, selected[..], i, target);
  }

  /** The second loop: continues with what is not flagged, up to the limit. */
  method AppendOthers(ranked: seq<Candidate>, flags: seq<bool>, page: seq<Candidate>, limit: nat)
    returns (result: seq<Candidate>)
    requires |flags| == |ranked| && |page| <= limit
    ensures page <= result && |result| <= limit && result[|page|..] <= Unflagged(ranked, flags)
    ensures |result| == limit || result[|page|..] == Unflagged(ranked, flags)
  {
    var added: seq<Candidate> := [];
    var i := 0;
    while i < |ranked| && |page| + |added| < limit
      invariant 0 <= i <= |ranked| && |page| + |added| <= limit
      invariant added == Unflagged(ranked[..i], flags[..i])
    {
      UnflaggedStep(ranked, flags, i);
      if !flags[i] {
        added := added + [ranked[i]];
      }
      i := i + 1;
    }
    UnflaggedPrefix(ranked, flags, i);
    if i == |ranked| {
      assert ranked[..i] == ranked && flags[..i] == flags;
    }
    result := page + added;
    assert result[|page|..] == added;
  }

  method ApplyQuota(ranked: seq<Candidate>, limit: nat) returns (result: seq<Candidate>)
    requires limit > 0
    ensures result == Quota(ranked, limit)
  {
    var target := if limit < FIRST_PAGE then limit else FIRST_PAGE;
    var page, selected := FillPage(ranked, target);
    PageLaw(ranked, target);
    if |page| < target {
      return page;
    }
    result := AppendOthers(ranked, selected[..], page, limit);
    assert result == page + result[|page|..];
  }

  /** The flags mark exactly the page. */
  ghost predicate Flagged(ranked: seq<Candidate>, flags: seq<bool>, target: nat) {
    |flags| == |ranked| &&
    (ranked != [] ==>
      var n := |ranked| - 1;
      Flagged(ranked[..n], flags[..n], target) && (flags[n] <==> Fits(Page(ranked[..n], target), ranked[n], target)))
  }

  ghost function Unflagged(ranked: seq<Candidate>, flags: seq<bool>): (r: seq<Candidate>)
    requires |flags| == |ranked|
  {
    if ranked == [] then []
    else Unflagged(ranked[..|ranked| - 1], flags[..|flags| - 1]) + if flags[|flags| - 1] then []
        else [ranked[|ranked| - 1]]
  }

  lemma {:induction false} UnflaggedOthers(ranked: seq<Candidate>, flags: seq<bool>, target: nat)
    requires Flagged(ranked, flags, target)
    ensures Unflagged(ranked, flags) == Others(ranked, target)
  {
    if ranked != [] {
      UnflaggedOthers(ranked[..|ranked| - 1], flags[..|flags| - 1], target);
    }
  }

  /** Once the page is full nothing more fits, so the flags set so far are final. */
  lemma {:induction false} FullPage(ranked: seq<Candidate>, flags: seq<bool>, i: nat, target: nat)
    requires i <= |ranked| == |flags| && Flagged(ranked[..i], flags[..i], target) && forall k | i <= k < |ranked| ::
               !flags[k]
    requires i < |ranked| ==> |Page(ranked[..i], target)| >= target
    ensures Page(ranked, target) == Page(ranked[..i], target)
    ensures Unflagged(ranked, flags) == Others(ranked, target)
    decreases |ranked| - i
  {
    if i < |ranked| {
      assert ranked[..i + 1][..i] == ranked[..i] && flags[..i + 1][..i] == flags[..i];
      FullPage(ranked, flags, i + 1, target);
    } else {
      assert ranked[..i] == ranked && flags[..i] == flags;
      UnflaggedOthers(ranked, flags, target);
    }
  }

  lemma UnflaggedStep(ranked: seq<Candidate>, flags: seq<bool>, i: nat)
    requires i < |ranked| == |flags|
    ensures Unflagged(ranked[..i + 1], flags[..i + 1]) == Unflagged(ranked[..i], flags[..i]) + if flags[i] then []
              else [ranked[i]]
  {
    assert ranked[..i + 1][..i] == ranked[..i] && flags[..i + 1][..i] == flags[..i];
  }

  lemma {:induction false} UnflaggedPrefix(ranked: seq<Candidate>, flags: seq<bool>, i: nat)
    requires i <= |ranked| == |flags|
    ensures Unflagged(ranked[..i], flags[..i]) <= Unflagged(ranked, flags)
    decreases |ranked| - i
  {
    if i < |ranked| {
      UnflaggedStep(ranked, flags, i);
      UnflaggedPrefix(ranked, flags, i + 1);
    } else {
      assert ranked[..i] == ranked && flags[..i] == flags;
    }
  }
}
