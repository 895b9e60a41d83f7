/** The merged candidate stream of librime-yunpin/src/rime_yunpin_filter.cpp: private
    phrases first, then a bounded, re-ranked window of upstream candidates, then the
    rest of upstream. A text is a sequence of Unicode scalars, and upstream is the
    finite list of candidates it would yield. */
module MergedStream {
  import opened Wrappers

  const PAGE := 8

  /** `exact`: an exact match of the same span and language as the injected phrase.
      `learned`: a user phrase, committed `commits` times. The last four describe an
      injected private phrase. */
  datatype Candidate = Candidate(
    text: string, correction: bool, exact: bool, learned: bool, commits: int,
    pinned: bool, score: int, synced: bool, uses: nat)

  predicate Ideograph(c: char) {
    var n := c as int;
    0x3400 <= n <= 0x4dbf || 0x4e00 <= n <= 0x9fff || 0xf900 <= n <= 0xfaff || 0x20000 <= n <= 0x2fa1f ||
        0x30000 <= n <= 0x323af
  }

  predicate LongCjk(text: string) {
    |text| >= 3 && forall i | 0 <= i < |text| :: Ideograph(text[i])
  }

  /** What the stream holds back: texts already injected, long predictions for short
      input, and (late) corrections of long input. */
  datatype Rule = Rule(injected: set<string>, hideLong: bool, protect: bool)

  predicate Hidden(rule: Rule, c: Candidate) {
    rule.hideLong && LongCjk(c.text)
  }

  predicate Suppressed(rule: Rule, c: Candidate, late: bool) {
    c.text in rule.injected || Hidden(rule, c) || (late && rule.protect && c.correction)
  }

  function Kept(rule: Rule, cs: seq<Candidate>, late: bool): (r: seq<Candidate>) {
    if cs == [] then []
    else (if Suppressed(rule, cs[0], late) then [] else [cs[0]]) + Kept(rule, cs[1..], late)
  }

  function Texts(cs: seq<Candidate>): (r: set<string>) {
    set c | c in cs :: c.text
  }

  function Ordinary(cs: seq<Candidate>): (r: seq<Candidate>)
    ensures forall c :: c in r <==> c in cs && !c.correction
  {
    if cs == [] then [] else (if cs[0].correction then [] else [cs[0]]) + Ordinary(cs[1..])
  }

  function FirstCorrection(cs: seq<Candidate>): (r: Option<Candidate>)
    ensures r.Some? ==> r.value in cs && r.value.correction
    ensures r.None? ==> forall c | c in cs :: !c.correction
  {
    if cs == [] then None else if cs[0].correction then Some(cs[0]) else FirstCorrection(cs[1..])
  }

  // --- Re-ranking ------------------------------------------------------------

  /** Insertion before the first candidate with a lower score. */
  function Place(cs: seq<Candidate>, c: Candidate, score: string -> int): (r: seq<Candidate>) {
    if cs == [] || score(cs[0].text) < score(c.text) then [c] + cs else [cs[0]] + Place(cs[1..], c, score)
  }

  /** A stable sort by descending score. */
  function Ranked(cs: seq<Candidate>, score: string -> int): (r: seq<Candidate>) {
    if cs == [] then [] else Place(Ranked(cs[..|cs| - 1], score), cs[|cs| - 1], score)
  }

  ghost predicate Descending(cs: seq<Candidate>, score: string -> int) {
    forall i, j | 0 <= i < j < |cs| :: score(cs[i].text) >= score(cs[j].text)
  }

  /** The candidates of one score, in order. */
  ghost function Scored(cs: seq<Candidate>, n: int, score: string -> int): (r: seq<Candidate>) {
    if cs == [] then [] else (if score(cs[0].text) == n then [cs[0]] else []) + Scored(cs[1..], n, score)
  }

  lemma {:induction false} PlacePermutes(cs: seq<Candidate>, c: Candidate, score: string -> int)
    ensures multiset(Place(cs, c, score)) == multiset(cs) + multiset{c}
  {
    if cs != [] && score(cs[0].text) >= score(c.text) {
      PlacePermutes(cs[1..], c, score);
      assert cs == [cs[0]] + cs[1..];
    }
  }

  lemma {:induction false} PlaceDescends(cs: seq<Candidate>, c: Candidate, score: string -> int)
    requires Descending(cs, score)
    ensures Descending(Place(cs, c, score), score)
  {
    if cs != [] && score(cs[0].text) >= score(c.text) {
      PlaceDescends(cs[1..], c, score);
      PlacePermutes(cs[1..], c, score);
      var rest := Place(cs[1..], c, score);
      forall i | 0 <= i < |rest| ensures score(cs[0].text) >= score(rest[i].text) {
        assert rest[i] in multiset(rest);
        assert rest[i] in cs[1..] || rest[i] == c;
      }
    }
  }

  lemma {:induction false} PlaceKeepsScored(cs: seq<Candidate>, c: Candidate, score: string -> int, n: int)
    requires Descending(cs, score)
    ensures Scored(Place(cs, c, score), n, score) == Scored(cs, n, score) + if score(c.text) == n then [c] else []
  {
    var r := Place(cs, c, score);
    if cs == [] || score(cs[0].text) < score(c.text) {
      assert r[1..] == cs;
      if score(c.text) == n {
        NoneScored(cs, n, score);
      }
    } else {
      PlaceKeepsScored(cs[1..], c, score, n);
      assert r[1..] == Place(cs[1..], c, score);
    }
  }

  lemma {:induction false} NoneScored(cs: seq<Candidate>, n: int, score: string -> int)
    requires forall c | c in cs :: score(c.text) < n
    ensures Scored(cs, n, score) == []
  {
    if cs != [] {
      NoneScored(cs[1..], n, score);
    }
  }

  lemma {:induction false} ScoredAppend(cs: seq<Candidate>, c: Candidate, n: int, score: string -> int)
    ensures Scored(cs + [c], n, score) == Scored(cs, n, score) + if score(c.text) == n then [c] else []
  {
    if cs == [] {
      assert cs + [c] == [c];
    } else {
      var d, rest := cs + [c], cs[1..];
      var head: seq<Candidate> := if score(cs[0].text) == n then [cs[0]] else [];
      assert d[1..] == rest + [c] && d[0] == cs[0];
      ScoredAppend(rest, c, n, score);
      assert Scored(d, n, score) == head + Scored(rest + [c], n, score);
      assert Scored(cs, n, score) == head + Scored(rest, n, score);
    }
  }

  /** The window is re-ranked by session score: a permutation, highest first, and
      equal scores keep their order. */
  lemma {:induction false} RankedIsAStableSort(cs: seq<Candidate>, score: string -> int, n: int)
    ensures Descending(Ranked(cs, score), score) && multiset(Ranked(cs, score)) == multiset(cs)
    ensures Scored(Ranked(cs, score), n, score) == Scored(cs, n, score)
  {
    if cs != [] {
      var front, c := cs[..|cs| - 1], cs[|cs| - 1];
      assert cs == front + [c];
      RankedIsAStableSort(front, score, n);
      PlacePermutes(Ranked(front, score), c, score);
      PlaceDescends(Ranked(front, score), c, score);
      PlaceKeepsScored(Ranked(front, score), c, score, n);
      ScoredAppend(front, c, n, score);
    }
  }

  // --- The window ------------------------------------------------------------

  /** With corrections protected: the ordinary candidates, with at most one correction
      after the first of them, and none behind two private phrases. */
  function Protected(window: seq<Candidate>, heads: nat): (r: seq<Candidate>) {
    var ordered, chosen := Ordinary(window), FirstCorrection(window);
    if ordered == [] then []
    else if chosen.Some? && heads < 2 then [ordered[0], chosen.value] + ordered[1..]
    else ordered
  }

  function Without(cs: seq<Candidate>, text: string): (r: seq<Candidate>)
    ensures forall c :: c in r <==> c in cs && c.text != text
  {
    if cs == [] then [] else (if cs[0].text == text then [] else [cs[0]]) + Without(cs[1..], text)
  }

  lemma {:induction false} KeptMembers(rule: Rule, cs: seq<Candidate>, late: bool)
    ensures forall c :: c in Kept(rule, cs, late) <==> c in cs && !Suppressed(rule, c, late)
  {
    if cs != [] {
      KeptMembers(rule, cs[1..], late);
      assert cs == [cs[0]] + cs[1..];
    }
  }

  lemma {:induction false} KeptAppend(rule: Rule, a: seq<Candidate>, b: seq<Candidate>, late: bool)
    ensures Kept(rule, a + b, late) == Kept(rule, a, late) + Kept(rule, b, late)
  {
    if a == [] {
      assert a + b == b;
    } else {
      assert (a + b)[1..] == a[1..] + b;
      KeptAppend(rule, a[1..], b, late);
    }
  }

  lemma RankedMembers(cs: seq<Candidate>, score: string -> int)
    ensures forall c :: c in Ranked(cs, score) <==> c in cs
  {
    RankedIsAStableSort(cs, score, 0);
    forall c ensures c in Ranked(cs, score) <==> c in cs {
      assert c in multiset(cs) <==> c in cs;
      assert c in multiset(Ranked(cs, score)) <==> c in Ranked(cs, score);
    }
  }

  // --- Promotion -------------------------------------------------------------

  /** Private phrases that never give way. */
  predicate Fixed(front: seq<Candidate>) {
    front == [] || front[0].pinned || front[0].score > 0
  }

  predicate ExactPhrase(c: Candidate) {
    c.exact && !c.correction
  }

  /** The first evidence index of a native copy of the injected phrase. */
  function Native(evidence: seq<Candidate>, text: string): (r: nat)
    ensures r <= |evidence|
    ensures r < |evidence| ==> evidence[r].text == text && ExactPhrase(evidence[r])
    ensures forall i | 0 <= i < r :: !(evidence[i].text == text && ExactPhrase(evidence[i]))
  {
    if evidence == [] || (evidence[0].text == text && ExactPhrase(evidence[0])) then 0
    else 1 + Native(evidence[1..], text)
  }

  /** Learned evidence that may take the head: it precedes a native copy of the
      injected phrase, or without one has at least as many commits as a synchronised
      phrase has uses. */
  predicate Eligible(front: seq<Candidate>, evidence: seq<Candidate>, i: nat)
    requires front != [] && i < |evidence|
  {
    var c, native := evidence[i], Native(evidence, front[0].text);
    && ExactPhrase(c) && c.learned
    && (if native < |evidence| then i < native else front[0].synced && c.commits > 0 && c.commits >= front[0].uses)
  }

  /** The first eligible evidence at or after an index. */
  function FirstEligible(front: seq<Candidate>, evidence: seq<Candidate>, i: nat): (r: Option<Candidate>)
    requires front != [] && i <= |evidence|
    ensures r.None? ==> forall k | i <= k < |evidence| :: !Eligible(front, evidence, k)
    ensures r.Some? ==> exists k | i <= k < |evidence| ::
                          && evidence[k] == r.value && Eligible(front, evidence, k)
                          && forall m | i <= m < k :: !Eligible(front, evidence, m)
    decreases |evidence| - i
  {
    if i == |evidence| then None
    else if Eligible(front, evidence, i) then Some(evidence[i])
    else FirstEligible(front, evidence, i + 1)
  }

  function Promotion(front: seq<Candidate>, evidence: seq<Candidate>): (r: Option<Candidate>) {
    if Fixed(front) then None else FirstEligible(front, evidence, 0)
  }

  // --- How much of upstream the first page takes -----------------------------

  function Room(heads: nat): (r: nat) {
    if heads < PAGE then PAGE - heads else 0
  }

  function TakeCount(rule: Rule, cs: seq<Candidate>, room: nat): (r: nat)
    ensures r <= |cs|
  {
    if cs == [] || room == 0 then 0
    else 1 + TakeCount(rule, cs[1..], if Suppressed(rule, cs[0], false) then room else room - 1)
  }

  /** The first page takes the shortest front of upstream whose shown candidates fill
      it, or everything. */
  lemma {:induction false} TakesJustEnough(rule: Rule, cs: seq<Candidate>, room: nat)
    ensures var k := TakeCount(rule, cs, room);
            && |Kept(rule, cs[..k], false)| <= room
            && (k < |cs| ==> |Kept(rule, cs[..k], false)| == room)
            && (k > 0 ==> |Kept(rule, cs[..k - 1], false)| < room)
  {
    if cs != [] && room > 0 {
      var c, rest, left := cs[0], cs[1..], if Suppressed(rule, cs[0], false) then room else room - 1;
      TakesJustEnough(rule, rest, left);
      var k := TakeCount(rule, rest, left);
      assert cs[..k + 1] == [c] + rest[..k];
      KeptAppend(rule, [c], rest[..k], false);
      if k > 0 {
        assert cs[..k] == [c] + rest[..k - 1];
        KeptAppend(rule, [c], rest[..k - 1], false);
      }
    }
  }

  /** The first candidates of a list that the guard does not hide. */
  function Evidence(rule: Rule, cs: seq<Candidate>, room: nat): (r: seq<Candidate>)
    ensures |r| <= room && forall c | c in r :: c in cs && !Hidden(rule, c)
  {
    if cs == [] || room == 0 then []
    else if Hidden(rule, cs[0]) then Evidence(rule, cs[1..], room)
    else [cs[0]] + Evidence(rule, cs[1..], room - 1)
  }

  lemma {:induction false} EvidenceAppend(rule: Rule, cs: seq<Candidate>, c: Candidate, room: nat)
    ensures var e := Evidence(rule, cs, room);
            Evidence(rule, cs + [c], room) == if |e| < room && !Hidden(rule, c) then e + [c] else e
  {
    if cs == [] {
      assert (cs + [c])[1..] == [];
    } else if room > 0 {
      assert (cs + [c])[1..] == cs[1..] + [c];
      EvidenceAppend(rule, cs[1..], c, if Hidden(rule, cs[0]) then room else room - 1);
    }
  }

  /** Part of the first page has been taken. */
  ghost predicate Taking(rule: Rule, all: seq<Candidate>, limit: nat, taken: seq<Candidate>, rest: seq<Candidate>,
                         window: seq<Candidate>, evidence: seq<Candidate>)
    requires |window| <= limit
  {
    && all == taken + rest && |taken| + TakeCount(rule, rest, limit - |window|) == TakeCount(rule, all, limit)
    && window == Kept(rule, taken, false) && evidence == Evidence(rule, taken, PAGE)
  }

  lemma TakingStep(rule: Rule, all: seq<Candidate>, limit: nat, taken: seq<Candidate>, rest: seq<Candidate>,
                   window: seq<Candidate>, evidence: seq<Candidate>)
    requires |window| < limit && rest != [] && Taking(rule, all, limit, taken, rest, window, evidence)
    ensures var c := rest[0];
            Taking(rule, all, limit, taken + [c], rest[1..],
                   if Suppressed(rule, c, false) then window else window + [c],
                   if |evidence| < PAGE && !Hidden(rule, c) then evidence + [c] else evidence)
  {
    var c := rest[0];
    KeptAppend(rule, taken, [c], false);
    EvidenceAppend(rule, taken, c, PAGE);
    assert rest == [c] + rest[1..];
    assert all == (taken + [c]) + rest[1..];
  }

  // --- What the stream emits -------------------------------------------------

  ghost function WindowOf(rule: Rule, heads: nat, taken: seq<Candidate>, score: string -> int): (r: seq<Candidate>) {
    var ranked := Ranked(Kept(rule, taken, false), score);
    if rule.protect then Protected(ranked, heads) else ranked
  }

  /** Everything emitted: the private head, the window over the candidates `taken` from
      upstream, and what is kept of the `rest`. A promoted candidate leads, and replaces
      those with its text. */
  ghost function Emitted(rule: Rule, front: seq<Candidate>, taken: seq<Candidate>, rest: seq<Candidate>,
                         score: string -> int, promoted: Option<Candidate>): (r: seq<Candidate>) {
    var window := WindowOf(rule, |front|, taken, score);
    var tail := Kept(rule, rest, true);
    match promoted
    case None => front + window + tail
    case Some(c) => [c] + Without(front, c.text) + Without(window, c.text) + tail
  }

  /** The whole output, from the upstream candidates and the private phrases. */
  ghost function Output(rule: Rule, upstream: seq<Candidate>, front: seq<Candidate>,
                        score: string -> int): (r: seq<Candidate>)
  {
    var k := TakeCount(rule, upstream, Room(|front|));
    var promoted := Promotion(front, Evidence(rule, upstream[..k], PAGE));
    Emitted(rule, front, upstream[..k], upstream[k..], score, promoted)
  }

  /** What the laws of the stream ask of a promoted candidate holds of the chosen one. */
  lemma PromotionIsPromotable(rule: Rule, front: seq<Candidate>, taken: seq<Candidate>)
    ensures Promotable(rule, taken, Promotion(front, Evidence(rule, taken, PAGE)))
  {
  }

  /** A promoted candidate is ordinary upstream evidence that the guard does not hide. */
  ghost predicate Promotable(rule: Rule, taken: seq<Candidate>, promoted: Option<Candidate>) {
    promoted.Some? ==> promoted.value in taken && ExactPhrase(promoted.value) && !Hidden(rule, promoted.value)
  }

  lemma WindowMembers(rule: Rule, heads: nat, taken: seq<Candidate>, score: string -> int, c: Candidate)
    ensures var w := WindowOf(rule, heads, taken, score);
            && (c in w ==> c in taken && !Suppressed(rule, c, false))
            && (c in taken && !Suppressed(rule, c, false) && (!c.correction || !rule.protect) ==> c in w)
  {
    KeptMembers(rule, taken, false);
    RankedMembers(Kept(rule, taken, false), score);
    var ranked := Ranked(Kept(rule, taken, false), score);
    var ordered := Ordinary(ranked);
    if ordered != [] {
      assert ordered == [ordered[0]] + ordered[1..];
    }
  }

  /** Under protection the window holds one correction at most, in second place behind an
      ordinary candidate, and only behind fewer than two private phrases. */
  lemma WindowCorrections(rule: Rule, heads: nat, taken: seq<Candidate>, score: string -> int, i: nat)
    requires rule.protect && i < |WindowOf(rule, heads, taken, score)| &&
             WindowOf(rule, heads, taken, score)[i].correction
    ensures i == 1 && heads < 2 && !WindowOf(rule, heads, taken, score)[0].correction
  {
    var ranked := Ranked(Kept(rule, taken, false), score);
    var ordered := Ordinary(ranked);
    assert forall k | 0 <= k < |ordered| :: ordered[k] in ordered;
    assert forall k | 0 <= k < |ordered| :: !ordered[k].correction;
  }

  lemma LateAreOrdinary(rule: Rule, rest: seq<Candidate>)
    requires rule.protect
    ensures forall c | c in Kept(rule, rest, true) :: !c.correction
  {
    KeptMembers(rule, rest, true);
  }

  /** Conservation: everything emitted is an injected phrase or an upstream candidate the
      guard does not hide; every injected text and every unhidden upstream text is emitted,
      but for corrections under protection. */
  lemma TextsAreConserved(rule: Rule, front: seq<Candidate>, taken: seq<Candidate>, rest: seq<Candidate>,
                          score: string -> int, promoted: Option<Candidate>)
    requires rule.injected == Texts(front) && Promotable(rule, taken, promoted)
    ensures var out := Emitted(rule, front, taken, rest, score, promoted);
            && (forall c | c in out :: c in front || (c in taken + rest && !Hidden(rule, c)))
            && Texts(front) <= Texts(out)
            && (forall c | c in taken + rest && !Hidden(rule, c) && (!c.correction || !rule.protect) ::
                  c.text in Texts(out))
  {
    var out := Emitted(rule, front, taken, rest, score, promoted);
    KeptMembers(rule, rest, true);
    forall c ensures c in out ==> c in front || (c in taken + rest && !Hidden(rule, c)) {
      WindowMembers(rule, |front|, taken, score, c);
    }
    forall c | c in front ensures c.text in Texts(out) {
      EmittedText(rule, front, taken, rest, score, promoted, c);
    }
    forall c | c in taken + rest && !Hidden(rule, c) && (!c.correction || !rule.protect) ensures c.text in Texts(out) {
      WindowMembers(rule, |front|, taken, score, c);
      if c.text in rule.injected {
        var f :| f in front && f.text == c.text;
        EmittedText(rule, front, taken, rest, score, promoted, f);
      } else {
        EmittedText(rule, front, taken, rest, score, promoted, c);
      }
    }
  }

  lemma EmittedText(rule: Rule, front: seq<Candidate>, taken: seq<Candidate>, rest: seq<Candidate>,
                    score: string -> int, promoted: Option<Candidate>, c: Candidate)
    requires c in front || c in WindowOf(rule, |front|, taken, score) || c in Kept(rule, rest, true)
    ensures c.text in Texts(Emitted(rule, front, taken, rest, score, promoted))
  {
    var out := Emitted(rule, front, taken, rest, score, promoted);
    assert c in out || (promoted.Some? && promoted.value in out && promoted.value.text == c.text);
  }

  function Corrections(cs: seq<Candidate>): (r: nat) {
    if cs == [] then 0 else (if cs[0].correction then 1 else 0) + Corrections(cs[1..])
  }

  lemma {:induction false} CorrectionsAppend(a: seq<Candidate>, b: seq<Candidate>)
    ensures Corrections(a + b) == Corrections(a) + Corrections(b)
  {
    if a == [] {
      assert a + b == b;
    } else {
      assert (a + b)[1..] == a[1..] + b;
      CorrectionsAppend(a[1..], b);
    }
  }

  lemma {:induction false} NoCorrections(cs: seq<Candidate>)
    requires forall c | c in cs :: !c.correction
    ensures Corrections(cs) == 0
  {
    if cs != [] {
      NoCorrections(cs[1..]);
    }
  }

  lemma {:induction false} WithoutRemoves(cs: seq<Candidate>, text: string)
    ensures Corrections(Without(cs, text)) <= Corrections(cs)
  {
    if cs != [] {
      WithoutRemoves(cs[1..], text);
      CorrectionsAppend(if cs[0].text == text then [] else [cs[0]], Without(cs[1..], text));
    }
  }

  lemma WindowHasOne(rule: Rule, heads: nat, taken: seq<Candidate>, score: string -> int)
    requires rule.protect
    ensures Corrections(WindowOf(rule, heads, taken, score)) <= 1
  {
    var ranked := Ranked(Kept(rule, taken, false), score);
    var ordered := Ordinary(ranked);
    NoCorrections(ordered);
    if ordered != [] && FirstCorrection(ranked).Some? && heads < 2 {
      var c := FirstCorrection(ranked).value;
      NoCorrections(ordered[1..]);
      CorrectionsAppend([ordered[0], c], ordered[1..]);
      CorrectionsAppend([ordered[0]], [c]);
      assert [ordered[0], c] == [ordered[0]] + [c];
      NoCorrections([ordered[0]]);
    }
  }

  /** Under protection at most one correction is ever emitted. */
  lemma AtMostOneCorrection(rule: Rule, front: seq<Candidate>, taken: seq<Candidate>, rest: seq<Candidate>,
                            score: string -> int, promoted: Option<Candidate>)
    requires rule.protect && Promotable(rule, taken, promoted) && forall c | c in front :: !c.correction
    ensures Corrections(Emitted(rule, front, taken, rest, score, promoted)) <= 1
  {
    var window, tail := WindowOf(rule, |front|, taken, score), Kept(rule, rest, true);
    WindowHasOne(rule, |front|, taken, score);
    LateAreOrdinary(rule, rest);
    NoCorrections(tail);
    NoCorrections(front);
    match promoted
    case None =>
      CorrectionsAppend(front, window);
      CorrectionsAppend(front + window, tail);
    case Some(c) =>
      var f, w := Without(front, c.text), Without(window, c.text);
      NoCorrections([c]);
      NoCorrections(f);
      WithoutRemoves(window, c.text);
      CorrectionsAppend([c], f);
      CorrectionsAppend([c] + f, w);
      CorrectionsAppend([c] + f + w, tail);
  }

  /** An ordinary upstream candidate precedes the correction; when nothing is promoted the
      correction is second or third overall. */
  lemma CorrectionIsPreceded(rule: Rule, front: seq<Candidate>, taken: seq<Candidate>, rest: seq<Candidate>,
                             score: string -> int, promoted: Option<Candidate>, i: nat)
    requires rule.protect && Promotable(rule, taken, promoted) && forall c | c in front :: !c.correction
    requires i < |Emitted(rule, front, taken, rest, score, promoted)|
    requires Emitted(rule, front, taken, rest, score, promoted)[i].correction
    ensures exists k | 0 <= k < i ::
              var c := Emitted(rule, front, taken, rest, score, promoted)[k]; c in taken && !c.correction
    ensures promoted.None? ==> i == |front| + 1 <= 2
  {
    var out := Emitted(rule, front, taken, rest, score, promoted);
    if promoted.None? {
      var window, tail := WindowOf(rule, |front|, taken, score), Kept(rule, rest, true);
      LateAreOrdinary(rule, rest);
      assert forall x | 0 <= x < |front| :: out[x] in front;
      assert forall x | |front| + |window| <= x < |out| :: out[x] == tail[x - |front| - |window|];
      WindowCorrections(rule, |front|, taken, score, i - |front|);
      WindowMembers(rule, |front|, taken, score, window[0]);
      assert out[|front|] == window[0];
    } else {
      assert out[0] == promoted.value;
    }
  }

  lemma {:induction false} OrdinaryAppend(a: seq<Candidate>, b: seq<Candidate>)
    ensures Ordinary(a + b) == Ordinary(a) + Ordinary(b)
  {
    if a == [] {
      assert a + b == b;
    } else {
      assert (a + b)[1..] == a[1..] + b;
      OrdinaryAppend(a[1..], b);
    }
  }

  lemma {:induction false} OrdinaryPermutes(a: seq<Candidate>, b: seq<Candidate>)
    requires multiset(a) == multiset(b)
    ensures multiset(Ordinary(a)) == multiset(Ordinary(b))
  {
    forall c ensures multiset(Ordinary(a))[c] == multiset(Ordinary(b))[c] {
      OrdinaryCount(a, c);
      OrdinaryCount(b, c);
    }
  }

  lemma {:induction false} OrdinaryCount(cs: seq<Candidate>, c: Candidate)
    ensures multiset(Ordinary(cs))[c] == if c.correction then 0 else multiset(cs)[c]
  {
    if cs != [] {
      var head, tail := if cs[0].correction then [] else [cs[0]], Ordinary(cs[1..]);
      OrdinaryCount(cs[1..], c);
      assert cs == [cs[0]] + cs[1..];
      assert Ordinary(cs) == head + tail;
      assert multiset(Ordinary(cs)) == multiset(head) + multiset(tail);
    }
  }

  lemma {:induction false} LateIsOrdinary(rule: Rule, cs: seq<Candidate>)
    requires rule.protect
    ensures Kept(rule, cs, true) == Ordinary(Kept(rule, cs, false))
  {
    if cs != [] {
      LateIsOrdinary(rule, cs[1..]);
      var k, rest := Kept(rule, cs, false), Kept(rule, cs[1..], false);
      if Suppressed(rule, cs[0], false) {
        assert k == rest && Kept(rule, cs, true) == Kept(rule, cs[1..], true);
      } else {
        assert k == [cs[0]] + rest && k[1..] == rest;
      }
    }
  }

  lemma {:induction false} KeptIgnoresLate(rule: Rule, cs: seq<Candidate>)
    requires !rule.protect
    ensures Kept(rule, cs, true) == Kept(rule, cs, false)
  {
    if cs != [] {
      KeptIgnoresLate(rule, cs[1..]);
    }
  }

  lemma SecondPlace(cs: seq<Candidate>, c: Candidate)
    requires cs != []
    ensures multiset([cs[0], c] + cs[1..]) == multiset(cs) + multiset([c])
  {
    assert cs == [cs[0]] + cs[1..];
    assert [cs[0], c] == [cs[0]] + [c];
  }

  /** The protected window is a permutation of its ordinary candidates, and perhaps one
      correction. */
  lemma WindowPermutes(rule: Rule, heads: nat, taken: seq<Candidate>, score: string -> int)
    returns (extra: seq<Candidate>)
    requires rule.protect
    ensures multiset(WindowOf(rule, heads, taken, score))
              == multiset(Ordinary(Kept(rule, taken, false))) + multiset(extra)
    ensures |extra| <= 1 && forall c | c in extra :: c.correction && c in Kept(rule, taken, false)
  {
    var early := Kept(rule, taken, false);
    var ranked := Ranked(early, score);
    RankedIsAStableSort(early, score, 0);
    RankedMembers(early, score);
    OrdinaryPermutes(ranked, early);
    var ordered, window := Ordinary(ranked), WindowOf(rule, heads, taken, score);
    extra := [];
    if ordered != [] && FirstCorrection(ranked).Some? && heads < 2 {
      var c := FirstCorrection(ranked).value;
      extra := [c];
      SecondPlace(ordered, c);
    }
  }

  /** When nothing is promoted, what is emitted is a permutation: without protection, of the
      private phrases and all unsuppressed upstream candidates; with it, of the private
      phrases, the ordinary unsuppressed ones and at most one correction. */
  lemma StreamIsAPermutation(rule: Rule, front: seq<Candidate>, taken: seq<Candidate>, rest: seq<Candidate>,
                             score: string -> int)
    returns (extra: seq<Candidate>)
    ensures var out := multiset(Emitted(rule, front, taken, rest, score, None));
            var kept := Kept(rule, taken + rest, false);
            out == multiset(front) + multiset(if rule.protect then Ordinary(kept) else kept) + multiset(extra)
    ensures |extra| <= 1 && forall c | c in extra :: c.correction && c in Kept(rule, taken + rest, false)
    ensures !rule.protect ==> extra == []
  {
    var window, tail := WindowOf(rule, |front|, taken, score), Kept(rule, rest, true);
    var early, late := Kept(rule, taken, false), Kept(rule, rest, false);
    KeptAppend(rule, taken, rest, false);
    assert multiset(front + window + tail) == multiset(front) + multiset(window) + multiset(tail);
    if rule.protect {
      extra := WindowPermutes(rule, |front|, taken, score);
      LateIsOrdinary(rule, rest);
      OrdinaryAppend(early, late);
    } else {
      extra := [];
      RankedIsAStableSort(early, score, 0);
      KeptIgnoresLate(rule, rest);
    }
  }

  // --- The translation -------------------------------------------------------

  /** One pass over the window: its ordinary candidates and its first correction. */
  method SelectCorrection(window: seq<Candidate>) returns (ordered: seq<Candidate>, chosen: Option<Candidate>)
    ensures ordered == Ordinary(window) && chosen == FirstCorrection(window)
  {
    ordered, chosen := [], None;
    for i := 0 to |window|
      invariant ordered == Ordinary(window[..i]) && chosen == FirstCorrection(window[..i])
    {
      SplitOne(window, i);
      if window[i].correction {
        chosen := if chosen.None? then Some(window[i]) else chosen;
      } else {
        ordered := ordered + [window[i]];
      }
    }
    assert window[..|window|] == window;
  }

  class Merged {
    const rule: Rule
    var upstream: seq<Candidate>
    var front: seq<Candidate>
    var window: seq<Candidate>
    var evidence: seq<Candidate>
    var frontCursor: nat
    var windowCursor: nat

    /** The next upstream candidate, if any, is one to show. */
    ghost predicate Valid()
      reads this
    {
      && frontCursor <= |front| && windowCursor <= |window|
      && (upstream != [] ==> !Suppressed(rule, upstream[0], true))
    }

    /** What is still to come. */
    ghost function Remaining(): (r: seq<Candidate>)
      reads this
      requires Valid()
    {
      front[frontCursor..] + window[windowCursor..] + Kept(rule, upstream, true)
    }

    method SkipSuppressedUpstream()
      modifies this`upstream
      ensures upstream != [] ==> !Suppressed(rule, upstream[0], true)
      ensures Kept(rule, upstream, true) == Kept(rule, old(upstream), true)
    {
      while upstream != []
        invariant Kept(rule, upstream, true) == Kept(rule, old(upstream), true)
        decreases |upstream|
      {
        if !Suppressed(rule, upstream[0], true) {
          break;
        }
        upstream := upstream[1..];
      }
    }

    /** Takes candidates from upstream until the first page is full. */
    method TakeWindow() returns (ghost taken: seq<Candidate>)
      requires window == [] && evidence == []
      modifies this`upstream, this`window, this`evidence
      ensures old(upstream) == taken + upstream && |taken| == TakeCount(rule, old(upstream), Room(|front|))
      ensures window == Kept(rule, taken, false) && evidence == Evidence(rule, taken, PAGE)
    {
      taken := [];
      var limit := if |front| < PAGE then PAGE - |front| else 0;
      while upstream != [] && |window| < limit
        invariant |window| <= limit && Taking(rule, old(upstream), limit, taken, upstream, window, evidence)
        decreases |upstream|
      {
        var candidate := upstream[0];
        TakingStep(rule, old(upstream), limit, taken, upstream, window, evidence);
        if |evidence| < PAGE && !Hidden(rule, candidate) {
          evidence := evidence + [candidate];
        }
        if !Suppressed(rule, candidate, false) {
          window := window + [candidate];
        }
        taken := taken + [candidate];
        upstream := upstream[1..];
      }
    }

    method ProtectLongCorrections()
      modifies this`window
      ensures window == if rule.protect then Protected(old(window), |front|) else old(window)
    {
      if !rule.protect || window == [] {
        return;
      }
      var ordered, chosen := SelectCorrection(window);
      if chosen.Some? && |front| < 2 && ordered != [] {
        ordered := [ordered[0], chosen.value] + ordered[1..];
      }
      window := ordered;
    }

    method PrepareUpstreamWindow(score: string -> int) returns (ghost taken: seq<Candidate>, ghost rest: seq<Candidate>)
      requires window == [] && evidence == [] && frontCursor == windowCursor == 0
      modifies this`upstream, this`window, this`evidence
      ensures Valid() && old(upstream) == taken + rest && |taken| == TakeCount(rule, old(upstream), Room(|front|))
      ensures window == WindowOf(rule, |front|, taken, score)
      ensures Kept(rule, upstream, true) == Kept(rule, rest, true)
      ensures evidence == Evidence(rule, taken, PAGE)
    {
      taken := TakeWindow();
      rest := upstream;
      window := Ranked(window, score);
      ProtectLongCorrections();
      SkipSuppressedUpstream();
    }

    /** Lets learned upstream evidence lead an unpinned private phrase: the first that is
        eligible, in place of everything with its text. */
    method PromoteLearnedUpstream() returns (ghost promoted: Option<Candidate>)
      requires Valid() && frontCursor == windowCursor == 0
      modifies this`front, this`window
      ensures Valid()
      ensures promoted == Promotion(old(front), evidence)
      ensures promoted.None? ==> front == old(front) && window == old(window)
      ensures promoted.Some? ==>
                && front == [promoted.value] + Without(old(front), promoted.value.text)
                && window == Without(old(window), promoted.value.text)
    {
      promoted := None;
      if front == [] || front[0].pinned || front[0].score > 0 {
        return;
      }
      var injected := front[0];
      var native := Native(evidence, injected.text);
      for i := 0 to |evidence|
        invariant front == old(front) && window == old(window)
        invariant FirstEligible(front, evidence, 0) == FirstEligible(front, evidence, i)
      {
        var c := evidence[i];
        var precedes := native < |evidence| && i < native;
        var comparable := native == |evidence| && injected.synced && c.commits > 0 && c.commits >= injected.uses;
        if ExactPhrase(c) && c.learned && (precedes || comparable) {
          promoted := Some(c);
          front := [c] + Without(front, c.text);
          window := Without(window, c.text);
          return;
        }
      }
    }

    /** The whole output is fixed when the stream is built. */
    constructor (upstream: seq<Candidate>, front: seq<Candidate>, hideLong: bool, protect: bool, score: string -> int)
      ensures Valid() && rule == Rule(Texts(front), hideLong, protect)
      ensures Remaining() == Output(rule, upstream, front, score)
    {
      rule := Rule(Texts(front), hideLong, protect);
      this.upstream, this.front := upstream, front;
      window, evidence, frontCursor, windowCursor := [], [], 0, 0;
      new;
      ghost var taken, rest := PrepareUpstreamWindow(score);
      ghost var promoted := PromoteLearnedUpstream();
      assert taken == upstream[..|taken|] && rest == upstream[|taken|..];
      assert Remaining() == Emitted(rule, front, taken, rest, score, promoted);
    }

    method Peek() returns (r: Option<Candidate>)
      requires Valid()
      ensures r == if Remaining() == [] then None else Some(Remaining()[0])
    {
      if frontCursor < |front| {
        return Some(front[frontCursor]);
      }
      if windowCursor < |window| {
        return Some(window[windowCursor]);
      }
      if upstream != [] {
        return Some(upstream[0]);
      }
      return None;
    }

    /** Drops exactly the candidate that Peek shows. */
    method Next() returns (more: bool)
      requires Valid()
      modifies this`frontCursor, this`windowCursor, this`upstream
      ensures Valid()
      ensures more <==> old(Remaining()) != []
      ensures Remaining() == if more then old(Remaining())[1..] else []
    {
      if frontCursor < |front| {
        frontCursor := frontCursor + 1;
        return true;
      }
      if windowCursor < |window| {
        windowCursor := windowCursor + 1;
        if windowCursor == |window| {
          SkipSuppressedUpstream();
        }
        return true;
      }
      if upstream != [] {
        upstream := upstream[1..];
        SkipSuppressedUpstream();
        return true;
      }
      return false;
    }
  }

  lemma SplitOne(cs: seq<Candidate>, i: nat)
    requires i < |cs|
    ensures Ordinary(cs[..i + 1]) == Ordinary(cs[..i]) + if cs[i].correction then [] else [cs[i]]
    ensures FirstCorrection(cs[..i + 1]) ==
              if FirstCorrection(cs[..i]).Some? then FirstCorrection(cs[..i]) else if cs[i].correction then Some(cs[i])
                   else None
  {
    assert cs[..i + 1] == cs[..i] + [cs[i]];
    OrdinaryAppend(cs[..i], [cs[i]]);
    FirstCorrectionAppend(cs[..i], cs[i]);
  }

  lemma {:induction false} FirstCorrectionAppend(cs: seq<Candidate>, c: Candidate)
    ensures FirstCorrection(cs + [c]) ==
              if FirstCorrection(cs).Some? then FirstCorrection(cs) else if c.correction then Some(c) else None
  {
    if cs == [] {
      assert cs + [c] == [c];
    } else {
      assert (cs + [c])[1..] == cs[1..] + [c];
      FirstCorrectionAppend(cs[1..], c);
    }
  }
}
