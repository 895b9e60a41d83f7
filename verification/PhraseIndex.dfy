/** The phrase index of engine/src/phrase_engine.cpp. A query runs over sorted keys,
    prefix ranges and a match table; it answers what a scan of every entry would. Pinyin
    is normalised, and the fuzzy aliases of a query are a parameter. */
module PhraseIndex {
  import opened Order
  import opened Wrappers
  import opened ScoreLimits
  import opened Records
  import opened PhraseKeys
  import opened PhraseRank

  const LONG_PHRASE := 4

  datatype Entry = Entry(
    id: Bytes, text: Bytes, syllables: seq<Bytes>, origin: Origin, uses: nat, weight: int,
    pinned: bool, learned: bool, tombstoned: bool, score: int, exactOnly: bool)

  function Full(syllables: seq<Bytes>): (r: Bytes) {
    if syllables == [] then [] else Full(syllables[..|syllables| - 1]) + syllables[|syllables| - 1]
  }

  /** The first letter of each syllable. */
  function FirstLetters(syllables: seq<Bytes>): (r: Bytes) {
    if syllables == [] then []
    else
      var last := syllables[|syllables| - 1];
      FirstLetters(syllables[..|syllables| - 1]) + if last == [] then [] else [last[0]]
  }

  predicate ValidEntry(e: Entry) {
    && e.id != [] && e.text != [] && e.syllables != []
    && (forall i | 0 <= i < |e.syllables| :: e.syllables[i] != [] && Letters(e.syllables[i]))
    && (e.exactOnly ==> PersonalOrigin(e.origin) && |Full(e.syllables)| >= 2)
  }

  lemma {:induction false} KeysAreLetters(syllables: seq<Bytes>)
    requires forall i | 0 <= i < |syllables| :: syllables[i] != [] && Letters(syllables[i])
    ensures Letters(Full(syllables)) && Letters(FirstLetters(syllables))
  {
    if syllables != [] {
      KeysAreLetters(syllables[..|syllables| - 1]);
      assert Letters(syllables[|syllables| - 1]);
    }
  }

  // --- The naive scan --------------------------------------------------------

  datatype Match = Match(kind: MatchKind, alias: Bytes)

  /** The first alias that is a prefix of a key. */
  ghost function FirstAlias(key: Bytes, aliases: seq<Bytes>): (r: Option<Bytes>)
    ensures r.Some? <==> exists i | 0 <= i < |aliases| :: aliases[i] <= key
  {
    if aliases == [] then None
    else if FirstAlias(key, aliases[..|aliases| - 1]).Some? then FirstAlias(key, aliases[..|aliases| - 1])
    else if aliases[|aliases| - 1] <= key then Some(aliases[|aliases| - 1]) else None
  }

  /** How an entry matches a query: its full pinyin literally or through an alias prefix,
      or else its initials. A code-only entry matches its complete code. */
  ghost function Classify(e: Entry, query: Bytes, aliases: seq<Bytes>): (r: Option<Match>)
    requires ValidEntry(e)
  {
    var full := Full(e.syllables);
    if e.exactOnly then (if full == query then Some(Match(ExactFull, query)) else None)
    else if FirstAlias(full, aliases).Some?
    then Some(Match(if full == query then ExactFull else FullPrefix, FirstAlias(full, aliases).value))
    else if |query| >= 2 && query <= FirstLetters(e.syllables) then Some(Match(Initials, query))
    else None
  }

  /** How many leading syllables a spelling completes. */
  function Completed(syllables: seq<Bytes>, spelling: Bytes): (r: nat)
    ensures r <= |syllables|
  {
    if syllables == [] || !(syllables[0] <= spelling) then 0
    else 1 + Completed(syllables[1..], spelling[|syllables[0]|..])
  }

  /** The recall gates. */
  predicate Admits(e: Entry, tombstoned: bool, m: Match, query: Bytes) {
    var n := |e.syllables|;
    var pinnedPersonal := e.pinned && PersonalOrigin(e.origin);
    var long := if pinnedPersonal then n >= LONG_PHRASE else n >= 3;
    && !tombstoned
    && (e.learned && !e.pinned ==> e.uses >= 2)
    && (PersonalOrigin(e.origin) && n >= 2 ==> |query| >= 2)
    && (long && m.kind == FullPrefix ==> Completed(e.syllables, m.alias) >= 2)
    && (long && m.kind == Initials ==> pinnedPersonal && |query| >= 4)
  }

  function CandidateOf(e: Entry, score: int, kind: MatchKind): (r: Candidate) {
    Candidate(e.id, e.text, Full(e.syllables), e.origin, kind, e.uses, e.weight, e.pinned, score, e.syllables)
  }

  ghost predicate ValidEntries(entries: seq<Entry>) {
    && (forall i | 0 <= i < |entries| :: ValidEntry(entries[i]))
    && (forall i, j | 0 <= i < j < |entries| :: entries[i].id != entries[j].id)
  }

  /** The entry at `i` answers the query. */
  ghost predicate Answers(entries: seq<Entry>, tombstones: seq<bool>, query: Bytes, aliases: seq<Bytes>, i: nat)
    requires ValidEntries(entries) && |tombstones| == |entries|
  {
    && i < |entries| && Classify(entries[i], query, aliases).Some?
    && Admits(entries[i], tombstones[i], Classify(entries[i], query, aliases).value, query)
  }

  /** Every answer, from a scan of every entry. */
  ghost function Scan(entries: seq<Entry>, tombstones: seq<bool>, scores: seq<int>, query: Bytes,
                      aliases: seq<Bytes>): (r: set<Candidate>)
    requires ValidEntries(entries) && |tombstones| == |scores| == |entries|
  {
    set i: nat | i < |entries| && Answers(entries, tombstones, query, aliases, i) ::
      CandidateOf(entries[i], scores[i], Classify(entries[i], query, aliases).value.kind)
  }

  lemma ScanIds(entries: seq<Entry>, tombstones: seq<bool>, scores: seq<int>, query: Bytes, aliases: seq<Bytes>)
    requires ValidEntries(entries) && |tombstones| == |scores| == |entries|
    ensures DistinctIds(Scan(entries, tombstones, scores, query, aliases))
  {
  }

  /** The answer to a query: the scan ranked, then cut by the quota. */
  ghost predicate IsAnswer(found: set<Candidate>, limit: nat, result: seq<Candidate>) {
    exists ranked :: Sorted(ranked) && (forall c :: c in ranked <==> c in found) && result == Quota(ranked, limit)
  }

  /** There is one answer, whatever order the matches are collected in. */
  lemma AnswerUnique(found: set<Candidate>, limit: nat, a: seq<Candidate>, b: seq<Candidate>)
    requires DistinctIds(found) && IsAnswer(found, limit, a) && IsAnswer(found, limit, b)
    ensures a == b
  {
    var r :| Sorted(r) && (forall c :: c in r <==> c in found) && a == Quota(r, limit);
    var s :| Sorted(s) && (forall c :: c in s <==> c in found) && b == Quota(s, limit);
    RankingUnique(r, s, found);
  }

  /** What every answer holds: at most `limit` candidates with different ids, the best
      ranked first, at most two personal ones among the first eight, each an entry of the
      scan. */
  lemma AnswerLaw(found: set<Candidate>, limit: nat, result: seq<Candidate>)
    requires DistinctIds(found) && IsAnswer(found, limit, result)
    ensures |result| <= limit && (forall c | c in result :: c in found)
    ensures forall i, j | 0 <= i < j < |result| :: result[i].id != result[j].id
    ensures Personals(if |result| <= FIRST_PAGE then result else result[..FIRST_PAGE]) <= MAX_PERSONAL
    ensures limit > 0 && found != {} ==>
              result != [] && forall c | c in found && c != result[0] :: Precedes(result[0], c)
  {
    var ranked :| Sorted(ranked) && (forall c :: c in ranked <==> c in found) && result == Quota(ranked, limit);
    QuotaLaw(ranked, limit);
    forall c | c in result ensures c in found {
      assert c in multiset(result);
      assert c in multiset(ranked);
    }
    forall i, j | 0 <= i < j < |result| ensures result[i].id != result[j].id {
      Twice(result, i, j);
      Once(ranked, result[i]);
      assert multiset(result)[result[i]] <= multiset(ranked)[result[i]];
    }
    if limit > 0 && found != {} {
      var c :| c in found;
      assert c in ranked;
    }
  }

  lemma Twice(cs: seq<Candidate>, i: nat, j: nat)
    requires i < j < |cs|
    ensures cs[i] == cs[j] ==> multiset(cs)[cs[i]] >= 2
  {
    assert cs == cs[..i] + [cs[i]] + cs[i + 1..j] + [cs[j]] + cs[j + 1..];
  }

  /** A sorted list holds nothing twice. */
  lemma {:induction false} Once(ranked: seq<Candidate>, c: Candidate)
    requires Sorted(ranked)
    ensures multiset(ranked)[c] <= 1
  {
    if ranked != [] {
      var rest := ranked[1..];
      Once(rest, c);
      assert ranked == [ranked[0]] + rest;
      if c == ranked[0] {
        RankingIsAnOrder(c, c, c);
        assert c !in rest;
      }
    }
  }

  // --- The index -------------------------------------------------------------

  /** The lookup key of an entry. */
  function KeyOf(e: Entry, byInitials: bool): (r: Bytes) {
    if byInitials then FirstLetters(e.syllables) else Full(e.syllables)
  }

  /** One key for each of the first `n` entries that is, or is not, code-only. */
  ghost predicate Keyed(entries: seq<Entry>, n: nat, codes: bool, byInitials: bool, keys: seq<KeyRef>)
    requires n <= |entries|
  {
    && (forall k :: k in keys <==>
          k.entry < n && entries[k.entry].exactOnly == codes && k.key == KeyOf(entries[k.entry], byInitials))
    && (forall i, j | 0 <= i < j < |keys| :: keys[i] != keys[j])
  }

  lemma KeyedNext(entries: seq<Entry>, n: nat, codes: bool, byInitials: bool, keys: seq<KeyRef>)
    requires n < |entries| && Keyed(entries, n, codes, byInitials, keys)
    ensures Keyed(entries, n + 1, codes, byInitials,
                  if entries[n].exactOnly == codes then keys + [KeyRef(KeyOf(entries[n], byInitials), n)] else keys)
  {
    var k := KeyRef(KeyOf(entries[n], byInitials), n);
    assert k !in keys;
    assert forall x :: x in keys + [k] <==> x in keys || x == k;
  }

  /** The entries are well formed and no id occurs twice. */
  method CheckEntries(entries: seq<Entry>) returns (ok: bool)
    ensures ok <==> ValidEntries(entries)
  {
    var ids: set<Bytes> := {};
    for i := 0 to |entries|
      invariant forall j | 0 <= j < i :: ValidEntry(entries[j]) && entries[j].id in ids
      invariant forall j, k | 0 <= j < k < i :: entries[j].id != entries[k].id
      invariant forall id | id in ids :: exists j | 0 <= j < i :: entries[j].id == id
    {
      if !ValidEntry(entries[i]) || entries[i].id in ids {
        return false;
      }
      ids := ids + {entries[i].id};
    }
    return true;
  }

  /** The three key lists of the entries. */
  method CollectKeys(entries: seq<Entry>) returns (full: seq<KeyRef>, initials: seq<KeyRef>, codes: seq<KeyRef>)
    ensures Keyed(entries, |entries|, false, false, full)
    ensures Keyed(entries, |entries|, false, true, initials)
    ensures Keyed(entries, |entries|, true, false, codes)
  {
    full, initials, codes := [], [], [];
    for i := 0 to |entries|
      invariant Keyed(entries, i, false, false, full)
      invariant Keyed(entries, i, false, true, initials)
      invariant Keyed(entries, i, true, false, codes)
    {
      KeyedNext(entries, i, false, false, full);
      KeyedNext(entries, i, false, true, initials);
      KeyedNext(entries, i, true, false, codes);
      var e := entries[i];
      if e.exactOnly {
        codes := codes + [KeyRef(Full(e.syllables), i)];
      } else {
        full := full + [KeyRef(Full(e.syllables), i)];
        initials := initials + [KeyRef(FirstLetters(e.syllables), i)];
      }
    }
  }

  /** A sorted key for each entry that is, or is not, code-only. */
  ghost predicate Indexed(entries: seq<Entry>, codes: bool, byInitials: bool, keys: seq<KeyRef>) {
    && Ascending(keys, KeyLess)
    && forall k :: k in keys <==>
       k.entry < |entries| && entries[k.entry].exactOnly == codes && k.key == KeyOf(entries[k.entry], byInitials)
  }

  // --- Matching through the index --------------------------------------------

  ghost function FullMatch(e: Entry, query: Bytes, aliases: seq<Bytes>): (r: Option<Match>) {
    var full := Full(e.syllables);
    if !e.exactOnly && FirstAlias(full, aliases).Some?
    then Some(Match(if full == query then ExactFull else FullPrefix, FirstAlias(full, aliases).value)) else None
  }

  /** The table holds the full-pinyin matches of some aliases. */
  ghost predicate FullMatches(entries: seq<Entry>, query: Bytes, aliases: seq<Bytes>, table: map<nat, Match>) {
    && (forall i | i in table :: i < |entries|)
    && (forall i: nat | i < |entries| :: Looked(table, i) == FullMatch(entries[i], query, aliases))
  }

  function Looked(table: map<nat, Match>, i: nat): (r: Option<Match>) {
    if i in table then Some(table[i]) else None
  }

  /** A match replaces another only if it is better. */
  function Better(had: Option<Match>, m: Match): (r: Match) {
    if had.Some? && MatchTier(m.kind) <= MatchTier(had.value.kind) then had.value else m
  }

  function MatchFor(key: Bytes, query: Bytes, alias: Bytes, first: bool): (r: Match) {
    Match(if first && key == query then ExactFull else FullPrefix, alias)
  }

  /** What one more alias means for one entry: only the literal one can match exactly, so
      the first match stays. */
  lemma FullMatchNext(e: Entry, query: Bytes, aliases: seq<Bytes>, alias: Bytes)
    requires if aliases == [] then alias == query else aliases[0] == query
    ensures var before, full := FullMatch(e, query, aliases), Full(e.syllables);
            FullMatch(e, query, aliases + [alias]) ==
              if e.exactOnly || !(alias <= full) then before
                   else Some(Better(before, MatchFor(full, query, alias, aliases == [])))
  {
    assert (aliases + [alias])[..|aliases|] == aliases;
  }

  /** The keys of a range have been added to a table; each entry has one key. */
  ghost predicate Added(keys: seq<KeyRef>, begin: nat, end: nat, table: map<nat, Match>, query: Bytes, alias: Bytes,
                        first: bool, r: map<nat, Match>)
    requires begin <= end <= |keys|
  {
    && (forall i :: i in r <==> i in table || Reached(keys, begin, end, i))
    && (forall p | begin <= p < end ::
          Looked(r, keys[p].entry)
          == Some(Better(Looked(table, keys[p].entry), MatchFor(keys[p].key, query, alias, first))))
    && (forall i | i in table && !Reached(keys, begin, end, i) :: r[i] == table[i])
  }

  lemma AddedNext(keys: seq<KeyRef>, begin: nat, it: nat, table: map<nat, Match>, query: Bytes, alias: Bytes,
                  first: bool,
                  r: map<nat, Match>)
    requires begin <= it < |keys| && Ascending(keys, KeyLess)
    requires forall p, q | 0 <= p < |keys| && 0 <= q < |keys| && keys[p].entry == keys[q].entry :: keys[p] == keys[q]
    requires Added(keys, begin, it, table, query, alias, first, r)
    ensures var i := keys[it].entry;
            Added(keys, begin, it + 1, table, query, alias, first,
                  r[i := Better(Looked(r, i), MatchFor(keys[it].key, query, alias, first))])
  {
    NotReached(keys, begin, it);
    ReachedNext(keys, begin, it);
    var i := keys[it].entry;
    var next := r[i := Better(Looked(r, i), MatchFor(keys[it].key, query, alias, first))];
    assert Looked(r, i) == Looked(table, i);
    forall p | begin <= p < it ensures Looked(next, keys[p].entry) == Looked(r, keys[p].entry) {
      assert Reached(keys, begin, it, keys[p].entry);
    }
  }

  /** Merges the matches of a range of keys into the table. */
  method AddRange(keys: seq<KeyRef>, begin: nat, end: nat, table: map<nat, Match>, query: Bytes, alias: Bytes,
                  first: bool)
    returns (r: map<nat, Match>)
    requires begin <= end <= |keys| && Ascending(keys, KeyLess)
    requires forall p, q | 0 <= p < |keys| && 0 <= q < |keys| && keys[p].entry == keys[q].entry :: keys[p] == keys[q]
    ensures Added(keys, begin, end, table, query, alias, first, r)
  {
    r := table;
    for it := begin to end
      invariant Added(keys, begin, it, table, query, alias, first, r)
    {
      AddedNext(keys, begin, it, table, query, alias, first, r);
      var i := keys[it].entry;
      r := r[i := Better(Looked(r, i), MatchFor(keys[it].key, query, alias, first))];
    }
  }

  /** The matches of one alias: the entries in its prefix range. */
  method AddAlias(entries: seq<Entry>, full: seq<KeyRef>, table: map<nat, Match>, query: Bytes, alias: Bytes,
                  first: bool, ghost aliases: seq<Bytes>)
    returns (r: map<nat, Match>)
    requires ValidEntries(entries) && Indexed(entries, false, false, full) &&
             FullMatches(entries, query, aliases, table)
    requires first <==> aliases == []
    requires if first then alias == query else aliases[0] == query
    ensures FullMatches(entries, query, aliases + [alias], r)
  {
    IndexLetters(entries, false, false, full);
    OneKeyEach(entries, false, false, full);
    var begin, end := PrefixRange(full, alias);
    r := AddRange(full, begin, end, table, query, alias, first);
    forall i: nat ensures i in r ==> i < |entries|
      ensures i < |entries| ==> Looked(r, i) == FullMatch(entries[i], query, aliases + [alias])
    {
      AliasMatch(entries, full, begin, end, table, r, query, alias, aliases, i);
    }
  }

  lemma IndexLetters(entries: seq<Entry>, codes: bool, byInitials: bool, keys: seq<KeyRef>)
    requires ValidEntries(entries) && Indexed(entries, codes, byInitials, keys)
    ensures forall p | 0 <= p < |keys| :: Letters(keys[p].key)
  {
    forall p | 0 <= p < |keys| ensures Letters(keys[p].key) {
      assert keys[p] in keys;
      KeysAreLetters(entries[keys[p].entry].syllables);
    }
  }

  lemma AliasMatch(entries: seq<Entry>, full: seq<KeyRef>, begin: nat, end: nat, table: map<nat, Match>,
                   r: map<nat, Match>,
                   query: Bytes, alias: Bytes, aliases: seq<Bytes>, i: nat)
    requires Indexed(entries, false, false, full) && FullMatches(entries, query, aliases, table) &&
             begin <= end <= |full|
    requires if aliases == [] then alias == query else aliases[0] == query
    requires forall p | 0 <= p < |full| :: begin <= p < end <==> alias <= full[p].key
    requires i in r <==> i in table || Reached(full, begin, end, i)
    requires forall p | begin <= p < end && full[p].entry == i ::
               Looked(r, i) == Some(Better(Looked(table, i), MatchFor(full[p].key, query, alias, aliases == [])))
    requires i in table && !Reached(full, begin, end, i) ==> r[i] == table[i]
    ensures i in r ==> i < |entries|
    ensures i < |entries| ==> Looked(r, i) == FullMatch(entries[i], query, aliases + [alias])
  {
    if i < |entries| {
      RangeReached(entries, false, false, full, begin, end, alias, i);
      FullMatchNext(entries[i], query, aliases, alias);
      if Reached(full, begin, end, i) {
        var p :| begin <= p < end && full[p].entry == i;
        assert full[p] in full;
      }
    } else {
      forall p | begin <= p < end ensures full[p].entry != i {
        assert full[p] in full;
      }
    }
  }

  ghost predicate Reached(keys: seq<KeyRef>, begin: nat, it: nat, i: nat)
    requires it <= |keys|
  {
    exists p | begin <= p < it :: keys[p].entry == i
  }

  lemma ReachedNext(keys: seq<KeyRef>, begin: nat, it: nat)
    requires begin <= it < |keys|
    ensures forall i: nat :: Reached(keys, begin, it + 1, i) <==> Reached(keys, begin, it, i) || i == keys[it].entry
  {
  }

  /** An entry has one key. */
  lemma NotReached(keys: seq<KeyRef>, begin: nat, it: nat)
    requires begin <= it < |keys| && Ascending(keys, KeyLess)
    requires forall p, q | 0 <= p < |keys| && 0 <= q < |keys| && keys[p].entry == keys[q].entry :: keys[p] == keys[q]
    ensures !Reached(keys, begin, it, keys[it].entry)
  {
    KeyOrder();
    forall p | begin <= p < it ensures keys[p].entry != keys[it].entry {
      assert KeyLess(keys[p], keys[it]);
    }
  }

  lemma OneKeyEach(entries: seq<Entry>, codes: bool, byInitials: bool, keys: seq<KeyRef>)
    requires Indexed(entries, codes, byInitials, keys)
    ensures forall p, q | 0 <= p < |keys| && 0 <= q < |keys| && keys[p].entry == keys[q].entry :: keys[p] == keys[q]
  {
    forall p, q | 0 <= p < |keys| && 0 <= q < |keys| && keys[p].entry == keys[q].entry ensures keys[p] == keys[q] {
      assert keys[p] in keys && keys[q] in keys;
    }
  }

  /** The prefix range reaches exactly the entries whose key has the prefix. */
  lemma RangeReached(entries: seq<Entry>, codes: bool, byInitials: bool, keys: seq<KeyRef>, begin: nat, end: nat,
                     prefix: Bytes, i: nat)
    requires Indexed(entries, codes, byInitials, keys) && i < |entries| && begin <= end <= |keys|
    requires forall p | 0 <= p < |keys| :: begin <= p < end <==> prefix <= keys[p].key
    ensures Reached(keys, begin, end, i) <==> entries[i].exactOnly == codes && prefix <= KeyOf(entries[i], byInitials)
  {
    var k := KeyRef(KeyOf(entries[i], byInitials), i);
    if entries[i].exactOnly == codes {
      assert k in keys;
    }
    forall p | begin <= p < end && keys[p].entry == i ensures keys[p] == k && entries[i].exactOnly == codes {
      assert keys[p] in keys;
    }
  }

  /** Adds the code-only entries whose complete code is the query. */
  method AddCodes(entries: seq<Entry>, codes: seq<KeyRef>, table: map<nat, Match>, query: Bytes)
    returns (r: map<nat, Match>)
    requires Indexed(entries, true, false, codes)
    requires forall i | i in table :: i < |entries| && !entries[i].exactOnly
    ensures forall i | i in r :: i < |entries|
    ensures forall i: nat | i < |entries| ::
              Looked(r, i) == if entries[i].exactOnly && Full(entries[i].syllables) == query
                  then Some(Match(ExactFull, query))
                              else Looked(table, i)
  {
    var begin := LowerBound(codes, query, 0);
    var it := begin;
    r := table;
    while it < |codes| && codes[it].key == query
      invariant begin <= it <= |codes| && forall p | begin <= p < it :: codes[p].key == query
      invariant forall i | i in r :: i < |entries|
      invariant forall i: nat | i < |entries| ::
                  Looked(r, i) == if Reached(codes, begin, it, i) then Some(Match(ExactFull, query))
                      else Looked(table, i)
    {
      assert codes[it] in codes;
      OneKeyEach(entries, true, false, codes);
      NotReached(codes, begin, it);
      assert Looked(r, codes[it].entry) == Looked(table, codes[it].entry) == None;
      ghost var before := r;
      r := if codes[it].entry in r then r else r[codes[it].entry := Match(ExactFull, query)];
      assert forall i: nat :: Looked(r, i) == if i == codes[it].entry then Some(Match(ExactFull, query))
               else Looked(before, i);
      ReachedNext(codes, begin, it);
      it := it + 1;
    }
    forall i: nat | i < |entries|
      ensures Reached(codes, begin, it, i) <==> entries[i].exactOnly && Full(entries[i].syllables) == query
    {
      CodeReached(entries, codes, begin, it, query, i);
    }
  }

  /** Equal keys are adjacent in a sorted index. */
  lemma CodeReached(entries: seq<Entry>, codes: seq<KeyRef>, begin: nat, end: nat, query: Bytes, i: nat)
    requires Indexed(entries, true, false, codes) && i < |entries| && begin <= end <= |codes|
    requires forall p | 0 <= p < begin :: Less(codes[p].key, query)
    requires forall p | begin <= p < end :: codes[p].key == query
    requires end < |codes| ==> codes[end].key != query && !Less(codes[end].key, query)
    ensures Reached(codes, begin, end, i) <==> entries[i].exactOnly && Full(entries[i].syllables) == query
  {
    CompareAntisymmetric(query, query);
    forall p | begin <= p < end && codes[p].entry == i
      ensures entries[i].exactOnly && Full(entries[i].syllables) == query {
      assert codes[p] in codes;
    }
    if entries[i].exactOnly && Full(entries[i].syllables) == query {
      assert KeyRef(query, i) in codes;
      var p :| 0 <= p < |codes| && codes[p] == KeyRef(query, i);
      BeyondIsGreater(codes, end, p, query);
    }
  }

  lemma BeyondIsGreater(codes: seq<KeyRef>, end: nat, p: nat, query: Bytes)
    requires Ascending(codes, KeyLess) && end <= |codes| && p < |codes|
    requires end < |codes| ==> codes[end].key != query && !Less(codes[end].key, query)
    ensures p >= end ==> codes[p].key != query
  {
    if end <= p {
      CompareAntisymmetric(codes[end].key, query);
      if end < p {
        assert KeyLess(codes[end], codes[p]);
        CompareAntisymmetric(codes[end].key, codes[p].key);
        CompareAntisymmetric(query, codes[p].key);
        CompareTransitive(query, codes[end].key, codes[p].key);
      }
    }
  }

  /** Adds the entries whose initials start with the query, unless already matched. */
  method AddInitials(entries: seq<Entry>, initials: seq<KeyRef>, table: map<nat, Match>, query: Bytes)
    returns (r: map<nat, Match>)
    requires ValidEntries(entries) && Indexed(entries, false, true, initials)
    requires forall i | i in table :: i < |entries|
    ensures forall i | i in r :: i < |entries|
    ensures forall i: nat | i < |entries| ::
              Looked(r, i) == if i !in table && !entries[i].exactOnly && query <= FirstLetters(entries[i].syllables)
                              then Some(Match(Initials, query)) else Looked(table, i)
  {
    IndexLetters(entries, false, true, initials);
    var begin, end := PrefixRange(initials, query);
    r := table;
    for it := begin to end
      invariant forall i | i in r :: i < |entries|
      invariant forall i: nat | i < |entries| ::
                  Looked(r, i) == if i !in table && Reached(initials, begin, it, i) then Some(Match(Initials, query))
                      else Looked(table, i)
    {
      assert initials[it] in initials;
      r := if initials[it].entry in r then r else r[initials[it].entry := Match(Initials, query)];
      ReachedNext(initials, begin, it);
    }
    forall i: nat | i < |entries|
      ensures Reached(initials, begin, end, i) <==> !entries[i].exactOnly && query <= FirstLetters(entries[i].syllables)
    {
      RangeReached(entries, false, true, initials, begin, end, query, i);
    }
  }

  /** The three lookups together find what the scan finds. */
  method FindMatches(entries: seq<Entry>, full: seq<KeyRef>, initials: seq<KeyRef>, codes: seq<KeyRef>, query: Bytes,
                     aliases: seq<Bytes>)
    returns (table: map<nat, Match>)
    requires ValidEntries(entries)
    requires Indexed(entries, false, false, full) && Indexed(entries, false, true, initials) &&
             Indexed(entries, true, false, codes)
    requires aliases != [] && aliases[0] == query
    ensures forall i | i in table :: i < |entries|
    ensures forall i: nat | i < |entries| :: Looked(table, i) == Classify(entries[i], query, aliases)
  {
    table := map[];
    for k := 0 to |aliases|
      invariant FullMatches(entries, query, aliases[..k], table)
    {
      assert aliases[..k + 1] == aliases[..k] + [aliases[k]];
      table := AddAlias(entries, full, table, query, aliases[k], k == 0, aliases[..k]);
    }
    assert aliases[..|aliases|] == aliases;
    ghost var byFull := table;
    table := AddCodes(entries, codes, table, query);
    ghost var byCode := table;
    if |query| >= 2 {
      table := AddInitials(entries, initials, table, query);
    }
    forall i: nat | i < |entries| ensures Looked(table, i) == Classify(entries[i], query, aliases) {
      assert Looked(byFull, i) == FullMatch(entries[i], query, aliases);
    }
  }

  // --- Gates and ranking -----------------------------------------------------

  method CountCompleted(syllables: seq<Bytes>, spelling: Bytes) returns (count: nat)
    ensures count == Completed(syllables, spelling)
  {
    count := 0;
    var offset: nat := 0;
    while count < |syllables|
      invariant count <= |syllables| && offset <= |spelling|
      invariant Completed(syllables, spelling) == count + Completed(syllables[count..], spelling[offset..])
    {
      var s := syllables[count];
      assert syllables[count..][0] == s && syllables[count..][1..] == syllables[count + 1..];
      if |spelling| < offset + |s| || spelling[offset..offset + |s|] != s {
        assert !(s <= spelling[offset..]);
        return;
      }
      assert s <= spelling[offset..] && spelling[offset..][|s|..] == spelling[offset + |s|..];
      offset := offset + |s|;
      count := count + 1;
    }
  }

  method Passes(e: Entry, tombstoned: bool, m: Match, query: Bytes) returns (ok: bool)
    ensures ok <==> Admits(e, tombstoned, m, query)
  {
    if tombstoned || (e.learned && !e.pinned && e.uses < 2) {
      return false;
    }
    var pinnedPersonal := e.pinned && PersonalOrigin(e.origin);
    if PersonalOrigin(e.origin) && |e.syllables| >= 2 && |query| < 2 {
      return false;
    }
    var pinnedLong := pinnedPersonal && |e.syllables| >= LONG_PHRASE;
    var otherLong := !pinnedPersonal && |e.syllables| >= 3;
    var completed := CountCompleted(e.syllables, m.alias);
    if otherLong && m.kind == FullPrefix && completed < 2 {
      return false;
    }
    if otherLong && m.kind == Initials {
      return false;
    }
    if pinnedLong && m.kind == FullPrefix && completed < 2 {
      return false;
    }
    return !(pinnedLong && m.kind == Initials && |query| < 4);
  }

  method SortCandidates(found: seq<Candidate>, ghost all: set<Candidate>) returns (ranked: seq<Candidate>)
    requires DistinctIds(all) && (forall c | c in found :: c in all)
    requires forall i, j | 0 <= i < j < |found| :: found[i] != found[j]
    ensures Sorted(ranked) && forall c :: c in ranked <==> c in found
  {
    ranked := [];
    for i := 0 to |found|
      invariant Sorted(ranked) && forall c :: c in ranked <==> c in found[..i]
    {
      assert found[i] in found;
      forall x | x in ranked ensures x.id != found[i].id {
        assert x in found[..i];
        assert x in found;
      }
      InsertRankedLaw(ranked, found[i]);
      ranked := InsertRanked(ranked, found[i]);
      assert found[..i + 1] == found[..i] + [found[i]];
    }
    assert found[..|found|] == found;
  }

  /** The match of entry `i` passes the gates as candidate `c`. */
  ghost predicate Yields(entries: seq<Entry>, tombstones: seq<bool>, scores: seq<int>, table: map<nat, Match>,
                         query: Bytes, i: nat, c: Candidate)
    requires |tombstones| == |scores| == |entries|
  {
    && i in table && i < |entries| && Admits(entries[i], tombstones[i], table[i], query)
    && c == CandidateOf(entries[i], scores[i], table[i].kind)
  }

  /** The candidates are those of the table's entries outside `left`. */
  ghost predicate Collected(entries: seq<Entry>, tombstones: seq<bool>, scores: seq<int>, table: map<nat, Match>,
                            query: Bytes,
                            left: set<nat>, found: seq<Candidate>)
    requires |tombstones| == |scores| == |entries|
  {
    && (forall c | c in found :: exists i: nat :: i !in left && Yields(entries, tombstones, scores, table, query, i, c))
    && (forall i: nat, c | i !in left && Yields(entries, tombstones, scores, table, query, i, c) :: c in found)
    && (forall i, j | 0 <= i < j < |found| :: found[i] != found[j])
  }

  lemma CollectedNext(entries: seq<Entry>, tombstones: seq<bool>, scores: seq<int>, table: map<nat, Match>,
                      query: Bytes,
                      left: set<nat>, found: seq<Candidate>, i: nat)
    requires ValidEntries(entries) && |tombstones| == |scores| == |entries|
    requires Collected(entries, tombstones, scores, table, query, left, found) && i in left && i in table &&
             i < |entries|
    ensures var c := CandidateOf(entries[i], scores[i], table[i].kind);
            Collected(entries, tombstones, scores, table, query, left - {i},
                      if Admits(entries[i], tombstones[i], table[i], query) then found + [c] else found)
  {
    var c := CandidateOf(entries[i], scores[i], table[i].kind);
    var admitted := Admits(entries[i], tombstones[i], table[i], query);
    var next := if admitted then found + [c] else found;
    assert admitted ==> Yields(entries, tombstones, scores, table, query, i, c);
    forall x | x in found ensures admitted ==> x != c {
      var j: nat :| j !in left && Yields(entries, tombstones, scores, table, query, j, x);
      assert entries[i].id != entries[j].id;
    }
    forall x | x in next ensures exists k: nat ::
             k !in left - {i} && Yields(entries, tombstones, scores, table, query, k, x) {
      var k: nat := i;
      if x in found {
        k :| k !in left && Yields(entries, tombstones, scores, table, query, k, x);
      }
      assert k !in left - {i} && Yields(entries, tombstones, scores, table, query, k, x);
    }
    forall k: nat, x | k !in left - {i} && Yields(entries, tombstones, scores, table, query, k, x) ensures x in next {
      assert k == i || k !in left;
    }
    forall p, q | 0 <= p < q < |next| ensures next[p] != next[q] {
      assert next[p] == found[p] && found[p] in found;
    }
  }

  /** The candidates of the matches that pass the gates, in whatever order the table
      yields them. */
  method CollectCandidates(entries: seq<Entry>, tombstones: seq<bool>, scores: seq<int>, table: map<nat, Match>,
                           query: Bytes, ghost aliases: seq<Bytes>)
    returns (found: seq<Candidate>)
    requires ValidEntries(entries) && |tombstones| == |scores| == |entries|
    requires forall i | i in table :: i < |entries|
    requires forall i: nat | i < |entries| :: Looked(table, i) == Classify(entries[i], query, aliases)
    ensures forall c :: c in found <==> c in Scan(entries, tombstones, scores, query, aliases)
    ensures forall i, j | 0 <= i < j < |found| :: found[i] != found[j]
  {
    found := [];
    var left := table.Keys;
    while left != {}
      invariant left <= table.Keys && Collected(entries, tombstones, scores, table, query, left, found)
    {
      var i :| i in left;
      CollectedNext(entries, tombstones, scores, table, query, left, found, i);
      var passes := Passes(entries[i], tombstones[i], table[i], query);
      if passes {
        found := found + [CandidateOf(entries[i], scores[i], table[i].kind)];
      }
      left := left - {i};
    }
    CollectedIsScan(entries, tombstones, scores, table, query, aliases, found);
  }

  lemma CollectedIsScan(entries: seq<Entry>, tombstones: seq<bool>, scores: seq<int>, table: map<nat, Match>,
                        query: Bytes,
                        aliases: seq<Bytes>, found: seq<Candidate>)
    requires ValidEntries(entries) && |tombstones| == |scores| == |entries|
    requires forall i: nat | i < |entries| :: Looked(table, i) == Classify(entries[i], query, aliases)
    requires Collected(entries, tombstones, scores, table, query, {}, found)
    ensures forall c :: c in found <==> c in Scan(entries, tombstones, scores, query, aliases)
  {
    forall c ensures c in found <==> c in Scan(entries, tombstones, scores, query, aliases) {
      if c in found {
        var i: nat :| i !in {} && Yields(entries, tombstones, scores, table, query, i, c);
        assert Looked(table, i) == Classify(entries[i], query, aliases);
        assert Answers(entries, tombstones, query, aliases, i);
      }
      if c in Scan(entries, tombstones, scores, query, aliases) {
        var i: nat :| i < |entries| && Answers(entries, tombstones, query, aliases, i) &&
                      c == CandidateOf(entries[i], scores[i], Classify(entries[i], query, aliases).value.kind);
        assert Looked(table, i) == Classify(entries[i], query, aliases);
        assert Yields(entries, tombstones, scores, table, query, i, c);
      }
    }
  }

  class Index {
    const entries: seq<Entry>
    const full: seq<KeyRef>
    const initials: seq<KeyRef>
    const codes: seq<KeyRef>
    var tombstones: seq<bool>
    var scores: seq<int>
    var revision: nat

    ghost predicate KeysOk() {
      && ValidEntries(entries)
      && Indexed(entries, false, false, full) && Indexed(entries, false, true, initials) &&
         Indexed(entries, true, false, codes)
    }

    ghost predicate Valid()
      reads this
    {
      && KeysOk() && |tombstones| == |scores| == |entries|
      && forall i | 0 <= i < |scores| :: -MAX_SCORE <= scores[i] <= MAX_SCORE
    }

    constructor (entries: seq<Entry>, full: seq<KeyRef>, initials: seq<KeyRef>, codes: seq<KeyRef>)
      requires ValidEntries(entries)
      requires Indexed(entries, false, false, full) && Indexed(entries, false, true, initials) &&
               Indexed(entries, true, false, codes)
      ensures Valid() && this.entries == entries && revision == 0
      ensures forall i | 0 <= i < |entries| ::
                tombstones[i] == entries[i].tombstoned && scores[i] == Clamp(entries[i].score)
    {
      this.entries, this.full, this.initials, this.codes := entries, full, initials, codes;
      tombstones := seq(|entries|, i requires 0 <= i < |entries| => entries[i].tombstoned);
      scores := seq(|entries|, i requires 0 <= i < |entries| => Clamp(entries[i].score));
      revision := 0;
    }

    /** Answers what the scan of every entry, ranked and cut by the quota, would. */
    method Query(query: Bytes, aliases: seq<Bytes>, limit: nat) returns (result: seq<Candidate>)
      requires Valid() && aliases != [] && aliases[0] == query
      ensures limit == 0 || query == [] ==> result == []
      ensures limit > 0 && query != [] ==> IsAnswer(Scan(entries, tombstones, scores, query, aliases), limit, result)
    {
      if limit == 0 || query == [] {
        return [];
      }
      var table := FindMatches(entries, full, initials, codes, query, aliases);
      var found := CollectCandidates(entries, tombstones, scores, table, query, aliases);
      ScanIds(entries, tombstones, scores, query, aliases);
      var ranked := SortCandidates(found, Scan(entries, tombstones, scores, query, aliases));
      result := ApplyQuota(ranked, limit);
    }

    /** Hides an entry for good. */
    method ApplyTombstone(id: Bytes) returns (found: bool)
      requires Valid()
      modifies this`tombstones, this`revision
      ensures Valid()
      ensures found <==> exists i | 0 <= i < |entries| :: entries[i].id == id
      ensures forall i | 0 <= i < |entries| :: tombstones[i] == (old(tombstones)[i] || entries[i].id == id)
      ensures revision == old(revision) + if tombstones == old(tombstones) then 0 else 1
    {
      for index := 0 to |entries|
        invariant tombstones == old(tombstones) && revision == old(revision)
        invariant forall i | 0 <= i < index :: entries[i].id != id
      {
        if entries[index].id == id {
          if !tombstones[index] {
            tombstones := tombstones[index := true];
            revision := revision + 1;
          }
          return true;
        }
      }
      return false;
    }

    /** Moves a score by the feedback, within the limits. */
    method ApplyCorrectionFeedback(id: Bytes, delta: int) returns (found: bool)
      requires Valid()
      modifies this`scores, this`revision
      ensures Valid()
      ensures found <==> exists i | 0 <= i < |entries| :: entries[i].id == id
      ensures forall i | 0 <= i < |entries| :: scores[i] == if entries[i].id == id
                then Clamp(old(scores)[i] + Clamp(delta)) else old(scores)[i]
      ensures revision == old(revision) + if scores == old(scores) then 0 else 1
    {
      for index := 0 to |entries|
        invariant scores == old(scores) && revision == old(revision)
        invariant forall i | 0 <= i < index :: entries[i].id != id
      {
        if entries[index].id == id {
          var current := scores[index];
          var next :=
            if delta > 0 then
              var step := if delta < MAX_SCORE then delta else MAX_SCORE;
              if current > MAX_SCORE - step then MAX_SCORE else current + step
            else
              var step := if delta > -MAX_SCORE then delta else -MAX_SCORE;
              if current < -MAX_SCORE - step then -MAX_SCORE else current + step;
          if next != current {
            scores := scores[index := next];
            revision := revision + 1;
          }
          return true;
        }
      }
      return false;
    }
  }

  /** A tombstoned entry answers no query. */
  lemma TombstoneHides(entries: seq<Entry>, tombstones: seq<bool>, scores: seq<int>, query: Bytes,
                       aliases: seq<Bytes>, i: nat)
    requires ValidEntries(entries) && |tombstones| == |scores| == |entries| && i < |entries| && tombstones[i]
    ensures forall c | c in Scan(entries, tombstones, scores, query, aliases) :: c.id != entries[i].id
  {
  }

  method Build(entries: seq<Entry>) returns (r: Option<Index>)
    ensures r.Some? <==> ValidEntries(entries)
    ensures r.Some? ==> fresh(r.value) && r.value.Valid() && r.value.entries == entries && r.value.revision == 0
    ensures r.Some? ==> forall i | 0 <= i < |entries| ::
              r.value.tombstones[i] == entries[i].tombstoned && r.value.scores[i] == Clamp(entries[i].score)
  {
    var ok := CheckEntries(entries);
    if !ok {
      return None;
    }
    var full, initials, codes := CollectKeys(entries);
    full := SortKeys(full);
    initials := SortKeys(initials);
    codes := SortKeys(codes);
    var index := new Index(entries, full, initials, codes);
    return Some(index);
  }
}
