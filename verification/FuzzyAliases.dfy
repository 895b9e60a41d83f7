/** The aliases of a fuzzy query (engine/src/phrase_engine.cpp): the variants of a syllable
    under the enabled pairs, and the bounded list of spellings of all its segmentations.
    Chunks are normalised. */
module FuzzyAliases {
  import opened Order
  import opened Wrappers
  import opened Segmenter
  import opened Segmentation

  const HARD_MAX := 64

  /** A pair of initials or finals that may be taken for each other. */
  datatype Rule = Initial(long: Bytes, short: Bytes) | Final(long: Bytes, short: Bytes)

  datatype Config =
    Config(zhZ: bool, chC: bool, shS: bool, nL: bool, enEng: bool, inIng: bool, maxAliases: nat)

  function Enabled(on: bool, rule: Rule): (r: seq<Rule>) {
    if on then [rule] else []
  }

  /** The enabled pairs, in the order they are applied. */
  function Rules(config: Config): (r: seq<Rule>) {
    Enabled(config.zhZ, Initial([122, 104], [122])) + Enabled(config.chC, Initial([99, 104], [99]))
    + Enabled(config.shS, Initial([115, 104], [115])) + Enabled(config.nL, Initial([110], [108]))
    + Enabled(config.enEng, Final([101, 110, 103], [101, 110]))
    + Enabled(config.inIng, Final([105, 110, 103], [105, 110]))
  }

  predicate EndsWith(v: Bytes, end: Bytes) {
    |end| <= |v| && v[|v| - |end|..] == end
  }

  /** The other member of the pair in place of the one the value has. */
  function Swap(rule: Rule, v: Bytes): (r: Option<Bytes>) {
    match rule
    case Initial(long, short) =>
      if long <= v then Some(short + v[|long|..])
      else if short <= v then Some(long + v[|short|..])
      else None
    case Final(long, short) =>
      if EndsWith(v, long) then Some(v[..|v| - |long|] + short)
      else if EndsWith(v, short) then Some(v[..|v| - |short|] + long)
      else None
  }

  predicate HasLong(rule: Rule, v: Bytes) {
    if rule.Initial? then rule.long <= v else EndsWith(v, rule.long)
  }

  /** Swapping twice gives the value back, unless the long form remains after the first. */
  lemma SwapIsUndoneIff(rule: Rule, v: Bytes)
    requires |rule.long| >= |rule.short| && rule.long != rule.short && Swap(rule, v).Some?
    ensures Swap(rule, Swap(rule, v).value) == Some(v) <==> !(HasLong(rule, v) && HasLong(rule, Swap(rule, v).value))
  {
    var w := Swap(rule, v).value;
    match rule
    case Initial(long, short) =>
      if long <= v {
        assert v == long + v[|long|..] && w[|short|..] == v[|long|..] && w[..|short|] == short;
      } else {
        assert v == short + v[|short|..] && w[|long|..] == v[|short|..] && w[..|long|] == long;
      }
    case Final(long, short) =>
      if EndsWith(v, long) {
        var n := |v| - |long|;
        assert v == v[..n] + long && w[..n] == v[..n] && w[n..] == short;
      } else {
        var n := |v| - |short|;
        assert v == v[..n] + short && w[..n] == v[..n] && w[n..] == long;
      }
  }

  // --- Variants of a syllable ------------------------------------------------

  predicate IsSyllable(table: Table, v: Bytes) {
    v != [] && v in table.syllables
  }

  /** The value comes from the syllable by the pairs in order, each used at most once,
      through syllables of the table only. */
  ghost predicate Reaches(table: Table, rules: seq<Rule>, s: Bytes, v: Bytes) {
    if rules == [] then v == s
    else
      var before, last := rules[..|rules| - 1], rules[|rules| - 1];
      Reaches(table, before, s, v)
      || (IsSyllable(table, v) && exists m :: Reaches(table, before, s, m) && Swap(last, m) == Some(v))
  }

  ghost predicate Unrepeated<T>(items: seq<T>) {
    forall i, j | 0 <= i < j < |items| :: items[i] != items[j]
  }

  function AppendValid(table: Table, limit: nat, variants: seq<Bytes>, v: Bytes): (r: seq<Bytes>) {
    if |variants| >= limit || !IsSyllable(table, v) || v in variants then variants else variants + [v]
  }

  /** What one pair adds to the list, reading the values of a snapshot in order. */
  ghost function Expanded(table: Table, rule: Rule, limit: nat, snapshot: seq<Bytes>): (r: seq<Bytes>) {
    ExpandedBy(table, rule, limit, snapshot, snapshot)
  }

  ghost function ExpandedBy(table: Table, rule: Rule, limit: nat, variants: seq<Bytes>, snapshot: seq<Bytes>)
    : (r: seq<Bytes>)
  {
    if snapshot == [] then variants
    else
      var done := ExpandedBy(table, rule, limit, variants, snapshot[..|snapshot| - 1]);
      var swapped := Swap(rule, snapshot[|snapshot| - 1]);
      if swapped.Some? then AppendValid(table, limit, done, swapped.value) else done
  }

  /** The variants of a syllable under all pairs. */
  ghost function VariantsOf(table: Table, rules: seq<Rule>, limit: nat, s: Bytes): (r: seq<Bytes>) {
    if rules == [] then [s]
    else Expanded(table, rules[|rules| - 1], limit, VariantsOf(table, rules[..|rules| - 1], limit, s))
  }

  method ExpandPair(table: Table, rule: Rule, limit: nat, variants: seq<Bytes>) returns (r: seq<Bytes>)
    ensures r == Expanded(table, rule, limit, variants)
  {
    var snapshot := variants;
    r := variants;
    for i := 0 to |snapshot|
      invariant r == ExpandedBy(table, rule, limit, variants, snapshot[..i])
    {
      assert snapshot[..i + 1][..i] == snapshot[..i];
      var swapped := Swap(rule, snapshot[i]);
      if swapped.Some? {
        r := AppendValid(table, limit, r, swapped.value);
      }
    }
    assert snapshot[..|snapshot|] == snapshot;
  }

  method FuzzyVariants(table: Table, rules: seq<Rule>, limit: nat, s: Bytes) returns (r: seq<Bytes>)
    ensures r == VariantsOf(table, rules, limit, s)
  {
    r := [s];
    for i := 0 to |rules|
      invariant r == VariantsOf(table, rules[..i], limit, s)
    {
      assert rules[..i + 1][..i] == rules[..i];
      r := ExpandPair(table, rules[i], limit, r);
    }
    assert rules[..|rules|] == rules;
  }

  /** One pair keeps the list, adds only valid swaps, and adds every one unless full. */
  lemma {:induction false} PairAdds(
    table: Table, rule: Rule, limit: nat, variants: seq<Bytes>, snapshot: seq<Bytes>)
    requires Unrepeated(variants)
    ensures var r := ExpandedBy(table, rule, limit, variants, snapshot);
            && variants <= r && Unrepeated(r) && (|r| <= |variants| || |r| <= limit)
            && (forall v | v in r ::
                  v in variants || (IsSyllable(table, v) && exists m | m in snapshot :: Swap(rule, m) == Some(v)))
            && (|r| < limit ==>
                  forall m, v | m in snapshot && Swap(rule, m) == Some(v) && IsSyllable(table, v) :: v in r)
  {
    if snapshot != [] {
      var n := |snapshot| - 1;
      PairAdds(table, rule, limit, variants, snapshot[..n]);
      assert snapshot == snapshot[..n] + [snapshot[n]];
    }
  }

  /** The list begins with the syllable, repeats nothing and holds only reached values;
      a list below the limit holds all of them. */
  lemma {:induction false} VariantsAreReached(table: Table, rules: seq<Rule>, limit: nat, s: Bytes)
    ensures var r := VariantsOf(table, rules, limit, s);
            && r != [] && r[0] == s && Unrepeated(r) && (|r| <= 1 || |r| <= limit)
            && (forall v | v in r :: Reaches(table, rules, s, v))
            && (|r| < limit ==> forall v :: Reaches(table, rules, s, v) <==> v in r)
  {
    if rules != [] {
      var before, last := rules[..|rules| - 1], rules[|rules| - 1];
      VariantsAreReached(table, before, limit, s);
      var list := VariantsOf(table, before, limit, s);
      PairAdds(table, last, limit, list, list);
    }
  }

  const NEN: Bytes := [110, 101, 110]
  const NENG: Bytes := [110, 101, 110, 103]
  const LENG: Bytes := [108, 101, 110, 103]
  const LEN: Bytes := [108, 101, 110]
  const N_L: Rule := Initial([110], [108])
  const EN_ENG: Rule := Final([101, 110, 103], [101, 110])

  lemma OneRule(table: Table, rule: Rule, s: Bytes, v: Bytes)
    ensures Reaches(table, [rule], s, v) <==> v == s || (IsSyllable(table, v) && Swap(rule, s) == Some(v))
  {
    assert [rule][..0] == [];
    assert Reaches(table, [rule][..0], s, s);
  }

  lemma OneWaySwaps()
    ensures Swap(N_L, NEN) == Some(LEN) && Swap(N_L, LENG) == Some(NENG)
    ensures Swap(EN_ENG, NENG) == Some(NEN) && Swap(EN_ENG, NEN) == Some(NENG)
  {
    assert [110] <= NEN && [108] + NEN[1..] == LEN;
    assert LENG[0] == 108 && [108] <= LENG && [110] + LENG[1..] == NENG;
    assert NENG[1..] == [101, 110, 103] && NENG[..1] + [101, 110] == NEN;
    assert NEN[1..] == [101, 110] && NEN[..1] + [101, 110, 103] == NENG;
  }

  /** A user may type leng for nen, but not nen for leng: len is no syllable, so the
      first pair leads nowhere, and after the second the first is not tried again. */
  lemma VariantsAreOneWay(table: Table)
    requires NEN in table.syllables && NENG in table.syllables && LENG in table.syllables
    requires LEN !in table.syllables
    ensures Reaches(table, [N_L, EN_ENG], LENG, NEN) && !Reaches(table, [N_L, EN_ENG], NEN, LENG)
  {
    var one, two := [N_L], [N_L, EN_ENG];
    OneWaySwaps();
    assert two[..1] == one;
    OneRule(table, N_L, LENG, NENG);
    forall m | Reaches(table, one, NEN, m) ensures m == NEN {
      OneRule(table, N_L, NEN, m);
    }
  }

  // --- Spellings of a path ---------------------------------------------------

  /** One variant of each syllable of the path, joined. */
  ghost predicate Spelling(table: Table, rules: seq<Rule>, path: Path, a: Bytes) {
    if path == [] then a == []
    else
      var n := |path| - 1;
      exists front, v :: Reaches(table, rules, path[n], v) && Spelling(table, rules, path[..n], front) && a == front + v
  }

  ghost function VariantLists(table: Table, rules: seq<Rule>, limit: nat, path: Path): (r: seq<seq<Bytes>>) {
    seq(|path|, i requires 0 <= i < |path| => VariantsOf(table, rules, limit, path[i]))
  }

  ghost function Spellings(table: Table, rules: seq<Rule>, limit: nat, path: Path): (r: seq<Bytes>) {
    Cut(Products(VariantLists(table, rules, limit, path)), limit)
  }

  lemma VariantListsFront(table: Table, rules: seq<Rule>, limit: nat, path: Path)
    requires path != []
    ensures var lists, n := VariantLists(table, rules, limit, path), |path| - 1;
            && lists[..n] == VariantLists(table, rules, limit, path[..n])
            && lists[n] == VariantsOf(table, rules, limit, path[n])
  {
  }

  /** Every prefix with every variant, in order, up to the limit. */
  method Concatenate(partial: seq<Bytes>, variants: seq<Bytes>, limit: nat) returns (next: seq<Bytes>)
    requires limit > 0
    ensures next == Cut(Product(partial, variants), limit)
  {
    next := [];
    for i := 0 to |partial|
      invariant next == Product(partial[..i], variants) && |next| < limit
    {
      ghost var done, here := next, Each(partial[i], variants);
      assert partial[..i + 1] == partial[..i] + [partial[i]];
      ProductSplits(partial[..i], [partial[i]], variants);
      assert Product([partial[i]], variants) == here;
      assert partial == partial[..i + 1] + partial[i + 1..];
      ProductSplits(partial[..i + 1], partial[i + 1..], variants);
      for j := 0 to |variants|
        invariant next == done + here[..j] && |next| < limit
      {
        next := next + [partial[i] + variants[j]];
        assert next == done + here[..j + 1];
        if |next| >= limit {
          assert (done + here)[..limit] == next;
          return;
        }
      }
      assert here[..|variants|] == here;
    }
    assert partial[..|partial|] == partial;
  }

  method SpellPath(table: Table, rules: seq<Rule>, limit: nat, path: Path) returns (partial: seq<Bytes>)
    requires limit > 0
    ensures partial == Spellings(table, rules, limit, path)
  {
    partial := [[]];
    for i := 0 to |path|
      invariant partial == Spellings(table, rules, limit, path[..i])
    {
      assert path[..i + 1][..i] == path[..i];
      VariantListsFront(table, rules, limit, path[..i + 1]);
      var variants := FuzzyVariants(table, rules, limit, path[i]);
      VariantsAreReached(table, rules, limit, path[i]);
      CutFronts(Products(VariantLists(table, rules, limit, path[..i])), variants, limit);
      partial := Concatenate(partial, variants, limit);
    }
    assert path[..|path|] == path;
  }

  /** Every spelling listed is one of the path; a list below the limit has them all. */
  lemma SpellingsAreExact(table: Table, rules: seq<Rule>, limit: nat, path: Path, a: Bytes)
    ensures var r := Spellings(table, rules, limit, path);
            && (a in r ==> Spelling(table, rules, path, a))
            && (|r| < limit ==> (a in r <==> Spelling(table, rules, path, a)))
  {
    ProductsAreSpellings(table, rules, limit, path, a);
    var all := Products(VariantLists(table, rules, limit, path));
    if a in Cut(all, limit) {
      CutMember(all, limit, a);
    }
  }

  lemma {:induction false} ProductsAreSpellings(table: Table, rules: seq<Rule>, limit: nat, path: Path, a: Bytes)
    ensures var all := Products(VariantLists(table, rules, limit, path));
            && all != []
            && (a in all ==> Spelling(table, rules, path, a))
            && (|all| < limit && Spelling(table, rules, path, a) ==> a in all)
  {
    if path != [] {
      var n := |path| - 1;
      VariantListsFront(table, rules, limit, path);
      VariantsAreReached(table, rules, limit, path[n]);
      var fronts, tails := Products(VariantLists(table, rules, limit, path[..n])),
          VariantsOf(table, rules, limit, path[n]);
      ProductsAreSpellings(table, rules, limit, path[..n], []);
      ProductSize(fronts, tails);
      ProductWidth(fronts, tails);
      ProductMembers(fronts, tails, a);
      forall front ensures (front in fronts ==> Spelling(table, rules, path[..n], front))
                        && (|fronts| < limit && Spelling(table, rules, path[..n], front) ==> front in fronts) {
        ProductsAreSpellings(table, rules, limit, path[..n], front);
      }
    }
  }

  // --- The list of aliases ---------------------------------------------------

  /** Items not listed yet, in order, until the list is full. */
  ghost function AddUnseen(list: seq<Bytes>, items: seq<Bytes>, limit: nat): (r: seq<Bytes>) {
    if items == [] then list
    else
      var done, last := AddUnseen(list, items[..|items| - 1], limit), items[|items| - 1];
      if |done| >= limit || last in done then done else done + [last]
  }

  ghost function AliasesOf(table: Table, rules: seq<Rule>, limit: nat, literal: Bytes, paths: seq<Path>)
    : (r: seq<Bytes>)
  {
    if paths == [] then [literal]
    else
      var n := |paths| - 1;
      AddUnseen(AliasesOf(table, rules, limit, literal, paths[..n]), Spellings(table, rules, limit, paths[n]), limit)
  }

  lemma {:induction false} AddUnseenAdds(list: seq<Bytes>, items: seq<Bytes>, limit: nat)
    requires Unrepeated(list) && |list| <= limit
    ensures var r := AddUnseen(list, items, limit);
            && list <= r && Unrepeated(r) && |r| <= limit
            && (forall a | a in r :: a in list || a in items)
            && (|r| < limit ==> forall a | a in items :: a in r)
  {
    if items != [] {
      var n := |items| - 1;
      AddUnseenAdds(list, items[..n], limit);
      assert items == items[..n] + [items[n]];
    }
  }

  lemma {:induction false} FullItems(list: seq<Bytes>, items: seq<Bytes>, limit: nat, i: nat)
    requires i <= |items| && |AddUnseen(list, items[..i], limit)| >= limit
    ensures AddUnseen(list, items, limit) == AddUnseen(list, items[..i], limit)
    decreases |items| - i
  {
    if i < |items| {
      assert items[..i + 1][..i] == items[..i];
      FullItems(list, items, limit, i + 1);
    } else {
      assert items[..i] == items;
    }
  }

  lemma {:induction false} FullPaths(
    table: Table, rules: seq<Rule>, limit: nat, literal: Bytes, paths: seq<Path>, i: nat)
    requires i <= |paths| && |AliasesOf(table, rules, limit, literal, paths[..i])| >= limit
    ensures AliasesOf(table, rules, limit, literal, paths) == AliasesOf(table, rules, limit, literal, paths[..i])
    decreases |paths| - i
  {
    if i < |paths| {
      assert paths[..i + 1][..i] == paths[..i];
      var list, items := AliasesOf(table, rules, limit, literal, paths[..i]), Spellings(table, rules, limit, paths[i]);
      assert items[..0] == [];
      FullItems(list, items, limit, 0);
      FullPaths(table, rules, limit, literal, paths, i + 1);
    } else {
      assert paths[..i] == paths;
    }
  }

  /** The loop over the spellings of one path. */
  method AddAliases(aliases: seq<Bytes>, items: seq<Bytes>, limit: nat) returns (r: seq<Bytes>)
    requires |aliases| < limit
    ensures r == AddUnseen(aliases, items, limit)
  {
    r := aliases;
    for i := 0 to |items|
      invariant r == AddUnseen(aliases, items[..i], limit) && |r| < limit
    {
      assert items[..i + 1][..i] == items[..i];
      if items[i] !in r {
        r := r + [items[i]];
        if |r| >= limit {
          FullItems(aliases, items, limit, i + 1);
          return;
        }
      }
    }
    assert items[..|items|] == items;
  }

  function Limit(config: Config): (r: nat) {
    if config.maxAliases < 1 then 1 else if config.maxAliases < HARD_MAX then config.maxAliases else HARD_MAX
  }

  ghost predicate Expands(config: Config, literal: Bytes) {
    |literal| > 2 && config.maxAliases > 1 && Rules(config) != []
  }

  ghost function Paths(table: Table, limits: Limits, boundary: bool, chunks: seq<Bytes>): (r: seq<Path>) {
    if Usable(limits, Joined(chunks)) then Staged(table, limits, boundary, chunks) else []
  }

  method ExpandAliases(table: Table, limits: Limits, config: Config, chunks: seq<Bytes>, boundary: bool)
    returns (aliases: seq<Bytes>)
    ensures var literal := Joined(chunks);
            aliases == if literal == [] then []
                       else if !Expands(config, literal) then [literal]
                       else AliasesOf(table, Rules(config), Limit(config), literal,
                                      Paths(table, limits, boundary, chunks))
  {
    var literal := JoinChunks(chunks);
    if literal == [] {
      return [];
    }
    var limit, rules := Limit(config), Rules(config);
    aliases := [literal];
    if |literal| <= 2 || config.maxAliases <= 1 || rules == [] || limit <= 1 {
      return;
    }
    var paths := Segment(table, limits, chunks, boundary);
    for i := 0 to |paths|
      invariant aliases == AliasesOf(table, rules, limit, literal, paths[..i]) && |aliases| < limit
    {
      assert paths[..i + 1][..i] == paths[..i];
      var spellings := SpellPath(table, rules, limit, paths[i]);
      aliases := AddAliases(aliases, spellings, limit);
      if |aliases| >= limit {
        FullPaths(table, rules, limit, literal, paths, i + 1);
        return;
      }
    }
    assert paths[..|paths|] == paths;
  }

  /** The literal comes first, nothing is repeated, the limit holds, and every other alias
      is a spelling of one of the paths. Where neither the list nor a path fills the
      limit, the aliases are exactly those. */
  lemma {:induction false} AliasesAreExact(
    table: Table, rules: seq<Rule>, limit: nat, literal: Bytes, paths: seq<Path>, a: Bytes)
    requires limit > 0
    ensures var r := AliasesOf(table, rules, limit, literal, paths);
            && r != [] && r[0] == literal && Unrepeated(r) && |r| <= limit
            && (a in r ==> a == literal || exists p | p in paths :: Spelling(table, rules, p, a))
            && (|r| < limit && (forall p | p in paths :: |Spellings(table, rules, limit, p)| < limit) ==>
                  (a in r <==> a == literal || exists p | p in paths :: Spelling(table, rules, p, a)))
  {
    if paths != [] {
      var n := |paths| - 1;
      AliasesAreExact(table, rules, limit, literal, paths[..n], a);
      assert paths == paths[..n] + [paths[n]];
      AddUnseenAdds(AliasesOf(table, rules, limit, literal, paths[..n]),
                    Spellings(table, rules, limit, paths[n]), limit);
      SpellingsAreExact(table, rules, limit, paths[n], a);
    }
  }

  /** Where the limits do not bind, the aliases are the literal and the spellings of every
      combination of paths of the chunks within the syllable limit. */
  lemma AliasesOfEveryPath(
    table: Table, limits: Limits, rules: seq<Rule>, limit: nat, chunks: seq<Bytes>, boundary: bool, a: Bytes)
    requires limit > 0 && Usable(limits, Joined(chunks))
    requires var lists, paths := ChunkLists(table, limits, boundary, chunks), Paths(table, limits, boundary, chunks);
             && |Products(lists)| <= limits.paths
             && |AliasesOf(table, rules, limit, Joined(chunks), paths)| < limit
             && forall p | p in paths :: |Spellings(table, rules, limit, p)| < limit
    ensures a in AliasesOf(table, rules, limit, Joined(chunks), Paths(table, limits, boundary, chunks)) <==>
              || a == Joined(chunks)
              || exists p | Picks(ChunkLists(table, limits, boundary, chunks), p) ::
                   |p| <= limits.syllables && Spelling(table, rules, p, a)
  {
    var lists, paths := ChunkLists(table, limits, boundary, chunks), Paths(table, limits, boundary, chunks);
    AliasesAreExact(table, rules, limit, Joined(chunks), paths, a);
    UncappedIsEverything(table, limits, boundary, chunks);
    forall p ensures p in paths <==> Picks(lists, p) && |p| <= limits.syllables {
      FittingMembers(Products(lists), limits.syllables, p);
      ProductsArePicks(lists, p);
    }
  }

  lemma {:induction false} ReachedIsListed(table: Table, rules: seq<Rule>, s: Bytes, v: Bytes)
    requires TableOk(table) && Listed(table, s) && Reaches(table, rules, s, v)
    ensures Listed(table, v)
  {
    if rules != [] && Reaches(table, rules[..|rules| - 1], s, v) {
      ReachedIsListed(table, rules[..|rules| - 1], s, v);
    }
  }

  /** A spelling of a path is itself a path of as many syllables of the table. */
  lemma {:induction false} SpellingIsAPath(table: Table, rules: seq<Rule>, path: Path, a: Bytes) returns (q: Path)
    requires TableOk(table) && Spelling(table, rules, path, a)
    requires forall i | 0 <= i < |path| :: Listed(table, path[i])
    ensures Spelled(table, a, q) && |q| == |path|
  {
    if path == [] {
      q := [];
    } else {
      var n := |path| - 1;
      var front, v :| Reaches(table, rules, path[n], v) && Spelling(table, rules, path[..n], front) && a == front + v;
      var before := SpellingIsAPath(table, rules, path[..n], front);
      ReachedIsListed(table, rules, path[n], v);
      JoinedAppend(before, [v]);
      JoinedOne(v);
      q := before + [v];
    }
  }

  /** Every alias after the literal is a complete path of the table, of at most as many
      syllables as a path may have. */
  lemma AliasesAreValidated(
    table: Table, limits: Limits, rules: seq<Rule>, limit: nat, chunks: seq<Bytes>, boundary: bool, a: Bytes)
    requires TableOk(table) && limit > 0
    requires a in AliasesOf(table, rules, limit, Joined(chunks), Paths(table, limits, boundary, chunks))
    ensures a == Joined(chunks) || exists q :: Spelled(table, a, q) && |q| <= limits.syllables
  {
    var paths := Paths(table, limits, boundary, chunks);
    AliasesAreExact(table, rules, limit, Joined(chunks), paths, a);
    if a != Joined(chunks) {
      var p :| p in paths && Spelling(table, rules, p, a);
      SegmentIsSound(table, limits, boundary, chunks, p);
      var q := SpellingIsAPath(table, rules, p, a);
    }
  }
}
