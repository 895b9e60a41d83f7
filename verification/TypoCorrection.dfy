/** The bounded typo generator of librime-yunpin/src/typo_correction.cpp: every
    spelling one physical edit away from a leading prefix of the input. */
module TypoCorrection {

  datatype Kind = Neighbour | Transposition | ExtraKey | MissingKey | ReviewedConfusion

  datatype Variant = Variant(spelling: string, consumed: nat, cost: nat, kind: Kind)

  datatype Options = Options(
    neighbour: bool, transposition: bool, extraKey: bool, missingKey: bool, reviewed: bool,
    maxInput: nat, maxSyllable: nat, maxVariants: nat)

  const DEFAULTS := Options(true, true, true, true, false, 128, 6, 768)

  function Cost(k: Kind): (r: nat) {
    match k
    case Neighbour => 1
    case Transposition => 2
    case ExtraKey => 3
    case MissingKey => 2
    case ReviewedConfusion => 1
  }

  predicate Lower(c: char) {
    'a' <= c <= 'z'
  }

  /** The keys that touch a key on a QWERTY keyboard. */
  function Neighbours(c: char): (r: string)
    ensures |r| <= 6 && c !in r
  {
    match c
    case 'a' => "qwsz"   case 'b' => "ghvn"   case 'c' => "dfxv"   case 'd' => "ersfxc" case 'e' => "wrsd"
    case 'f' => "rtdgcv" case 'g' => "tyfhvb" case 'h' => "yugjbn" case 'i' => "uojk"   case 'j' => "uihknm"
    case 'k' => "iojlm"  case 'l' => "opk"    case 'm' => "jkn"    case 'n' => "hjbm"   case 'o' => "ipkl"
    case 'p' => "ol"     case 'q' => "wa"     case 'r' => "etdf"   case 's' => "weadzx" case 't' => "ryfg"
    case 'u' => "yihj"   case 'v' => "fgcb"   case 'w' => "qeas"   case 'x' => "sdzc"   case 'y' => "tugh"
    case 'z' => "asx"
    case _ => ""
  }

  const TYPED := "you"
  const INTENDED := "yao"

  // --- What counts as one edit -----------------------------------------------

  /** How many leading letters may matter. */
  function Leading(input: string, limit: nat): (r: nat)
    ensures r <= |input| && r <= limit
    ensures forall i | 0 <= i < r :: Lower(input[i])
    ensures r < |input| && r < limit ==> !Lower(input[r])
    decreases limit
  {
    if limit == 0 || input == "" || !Lower(input[0]) then 0 else 1 + Leading(input[1..], limit - 1)
  }

  ghost predicate Eligible(input: string, o: Options) {
    && input != "" && |input| < o.maxInput && o.maxSyllable >= 2 && o.maxVariants > 0
    && Leading(input, o.maxSyllable + 1) >= 2
  }

  /** One edit of a typed prefix: a letter replaced by its `n`th neighbour, two
      letters swapped, one removed, one inserted, or the reviewed pair. */
  datatype Edit =
    | Replace(length: nat, at: nat, n: nat)
    | Swap(length: nat, at: nat)
    | Remove(length: nat, at: nat)
    | Insert(length: nat, at: nat, letter: nat)
    | Review

  ghost predicate IsEdit(input: string, o: Options, e: Edit) {
    && Eligible(input, o)
    && var leading := Leading(input, o.maxSyllable + 1);
       match e
       case Replace(length, at, n) =>
         o.neighbour && 2 <= length <= o.maxSyllable && length <= leading && at < length && n < |Neighbours(input[at])|
       case Swap(length, at) =>
         o.transposition && 2 <= length <= o.maxSyllable && length <= leading && at + 1 < length &&
             input[at] != input[at + 1]
       case Remove(length, at) => o.extraKey && 3 <= length <= leading && at < length
       case Insert(length, at, letter) =>
         o.missingKey && 2 <= length < o.maxSyllable && length <= leading && at <= length && letter < 26
       case Review => o.reviewed && TYPED <= input && 3 <= o.maxSyllable
  }

  function Letter(n: nat): (r: char)
    requires n < 26
    ensures Lower(r)
  {
    'a' + n as char
  }

  ghost function Spelling(input: string, o: Options, e: Edit): (r: string)
    requires IsEdit(input, o, e)
  {
    match e
    case Replace(length, at, n) => input[..length][at := Neighbours(input[at])[n]]
    case Swap(length, at) => input[..length][at := input[at + 1]][at + 1 := input[at]]
    case Remove(length, at) => input[..at] + input[at + 1..length]
    case Insert(length, at, letter) => input[..at] + [Letter(letter)] + input[at..length]
    case Review => INTENDED
  }

  ghost function Consumed(e: Edit): (r: nat) {
    if e.Review? then 3 else e.length
  }

  ghost function KindOf(e: Edit): (r: Kind) {
    match e
    case Replace(_, _, _) => Neighbour
    case Swap(_, _) => Transposition
    case Remove(_, _) => ExtraKey
    case Insert(_, _, _) => MissingKey
    case Review => ReviewedConfusion
  }

  /** An edit never gives back what was typed, and stays within the bounds. */
  lemma EditsChange(input: string, o: Options, e: Edit)
    requires IsEdit(input, o, e)
    ensures Consumed(e) <= |input| && Spelling(input, o, e) != input[..Consumed(e)]
    ensures 2 <= |Spelling(input, o, e)| <= o.maxSyllable
    ensures 2 <= Consumed(e) <= Leading(input, o.maxSyllable + 1)
  {
    var s, p := Spelling(input, o, e), input[..Consumed(e)];
    match e
    case Replace(length, at, n) => assert s[at] in Neighbours(input[at]) && p[at] == input[at];
    case Swap(length, at) => assert s[at] == input[at + 1] && p[at] == input[at];
    case Review => YouIsTyped(input, o);
    case _ =>
  }

  lemma YouIsTyped(input: string, o: Options)
    requires IsEdit(input, o, Review)
    ensures 3 <= Leading(input, o.maxSyllable + 1) && input[..3] == TYPED
  {
    assert input[0] == 'y' && input[1] == 'o' && input[2] == 'u';
  }

  // --- The result ------------------------------------------------------------

  ghost predicate Matches(input: string, o: Options, e: Edit, spelling: string, consumed: nat) {
    IsEdit(input, o, e) && Spelling(input, o, e) == spelling && Consumed(e) == consumed
  }

  /** Every variant is an edit of its kind, and no two share spelling and length. */
  ghost predicate Sound(input: string, o: Options, r: seq<Variant>) {
    && (forall i | 0 <= i < |r| :: Justified(input, o, r[i]))
    && (forall i, j | 0 <= i < j < |r| :: r[i].spelling != r[j].spelling || r[i].consumed != r[j].consumed)
  }

  ghost predicate Justified(input: string, o: Options, v: Variant) {
    v.cost == Cost(v.kind) && exists e :: Matches(input, o, e, v.spelling, v.consumed) && KindOf(e) == v.kind
  }

  /** Some variant has the edit's spelling and length, at its cost or cheaper. */
  ghost predicate Covers(r: seq<Variant>, spelling: string, consumed: nat, cost: nat) {
    exists i | 0 <= i < |r| :: r[i].spelling == spelling && r[i].consumed == consumed && r[i].cost <= cost
  }

  ghost predicate Covered(input: string, o: Options, r: seq<Variant>, e: Edit) {
    IsEdit(input, o, e) ==> Covers(r, Spelling(input, o, e), Consumed(e), Cost(KindOf(e)))
  }

  ghost predicate Complete(input: string, o: Options, r: seq<Variant>) {
    forall e :: Covered(input, o, r, e)
  }

  /** A sound and complete result is exactly the set of one-edit spellings, each
      once, at the cost of its cheapest edit, and never the unchanged prefix. */
  lemma ResultIsExact(input: string, o: Options, r: seq<Variant>, spelling: string, consumed: nat)
    requires Sound(input, o, r) && Complete(input, o, r)
    ensures (exists i | 0 <= i < |r| :: r[i].spelling == spelling && r[i].consumed == consumed) <==>
            (exists e :: Matches(input, o, e, spelling, consumed))
    ensures forall i, e | 0 <= i < |r| && Matches(input, o, e, r[i].spelling, r[i].consumed) ::
              r[i].cost <= Cost(KindOf(e))
    ensures forall i | 0 <= i < |r| :: r[i].consumed <= |input| && r[i].spelling != input[..r[i].consumed]
  {
    forall i | 0 <= i < |r|
      ensures exists e :: Matches(input, o, e, r[i].spelling, r[i].consumed)
      ensures r[i].consumed <= |input| && r[i].spelling != input[..r[i].consumed]
    {
      assert Justified(input, o, r[i]);
      var e :| Matches(input, o, e, r[i].spelling, r[i].consumed) && KindOf(e) == r[i].kind;
      EditsChange(input, o, e);
    }
    forall e | Matches(input, o, e, spelling, consumed)
      ensures exists i | 0 <= i < |r| :: r[i].spelling == spelling && r[i].consumed == consumed
    {
      assert Covered(input, o, r, e);
    }
    forall i, e | 0 <= i < |r| && Matches(input, o, e, r[i].spelling, r[i].consumed)
      ensures r[i].cost <= Cost(KindOf(e)) {
      assert Covered(input, o, r, e);
      var j :| 0 <= j < |r| && r[j].spelling == r[i].spelling && r[j].consumed == r[i].consumed &&
          r[j].cost <= Cost(KindOf(e));
      assert i == j;
    }
  }

  // --- How many edits there are ----------------------------------------------

  function SameLength(m: nat): (r: nat) {
    if m < 2 then 0 else SameLength(m - 1) + 6 * m + (m - 1)
  }

  function Shorter(m: nat): (r: nat) {
    if m < 3 then 0 else Shorter(m - 1) + m
  }

  function Longer(m: nat): (r: nat) {
    if m < 2 then 0 else Longer(m - 1) + 26 * (m + 1)
  }

  /** An upper bound on the additions for syllables of up to m letters. */
  function Bound(m: nat): (r: nat)
    requires m >= 2
  {
    1 + SameLength(m) + Shorter(m + 1) + Longer(m - 1)
  }

  // --- The order in which edits are tried ------------------------------------

  datatype Cursor = Cursor(phase: nat, length: nat, part: nat, at: nat, n: nat)

  ghost predicate Earlier(a: Cursor, b: Cursor) {
    || a.phase < b.phase
    || (a.phase == b.phase && (a.length < b.length
       || (a.length == b.length && (a.part < b.part
          || (a.part == b.part && (a.at < b.at || (a.at == b.at && a.n < b.n)))))))
  }

  ghost function Turn(e: Edit): (r: Cursor) {
    match e
    case Review => Cursor(0, 0, 0, 0, 0)
    case Replace(length, at, n) => Cursor(1, length, 0, at, n)
    case Swap(length, at) => Cursor(1, length, 1, at, 0)
    case Remove(length, at) => Cursor(2, length, 0, at, 0)
    case Insert(length, at, letter) => Cursor(3, length, 0, at, letter)
  }

  /** Every edit whose turn was earlier is covered. */
  ghost predicate Reached(input: string, o: Options, r: seq<Variant>, c: Cursor) {
    forall e {:trigger Turn(e)} | IsEdit(input, o, e) && Earlier(Turn(e), c) :: Covered(input, o, r, e)
  }

  /** The same variants at the same or lower cost, and perhaps one more. */
  ghost predicate Grown(r: seq<Variant>, r': seq<Variant>) {
    && |r| <= |r'| <= |r| + 1
    && forall i | 0 <= i < |r| ::
       r'[i].spelling == r[i].spelling && r'[i].consumed == r[i].consumed && r'[i].cost <= r[i].cost
  }

  lemma GrownCovers(input: string, o: Options, r: seq<Variant>, r': seq<Variant>, c: Cursor)
    requires Grown(r, r') && Reached(input, o, r, c)
    ensures Reached(input, o, r', c)
  {
    forall e | IsEdit(input, o, e) && Earlier(Turn(e), c) ensures Covered(input, o, r', e) {
      assert Covered(input, o, r, e);
    }
  }

  /** Trying the edit at the cursor moves the cursor past it. */
  lemma Tried(input: string, o: Options, r: seq<Variant>, e: Edit, c: Cursor)
    requires Reached(input, o, r, Turn(e)) && Covered(input, o, r, e)
    requires c == Turn(e).(n := Turn(e).n + 1) || c == Turn(e).(at := Turn(e).at + 1, n := 0)
    requires e.Replace? || e.Insert? ==> c.n > 0
    ensures Reached(input, o, r, c)
  {
    forall f | IsEdit(input, o, f) && Earlier(Turn(f), c) ensures Covered(input, o, r, f) {
      assert Earlier(Turn(f), Turn(e)) || Turn(f) == Turn(e);
    }
  }

  /** The default limits leave room for every edit. */
  lemma DefaultsNeverTruncate()
    ensures Bound(DEFAULTS.maxSyllable) == 629 <= DEFAULTS.maxVariants
  {
    assert SameLength(4) == 60 && SameLength(6) == 135;
    assert Shorter(5) == 12 && Shorter(7) == 25;
    assert Longer(3) == 182 && Longer(5) == 468;
  }

  /** No edit has its turn from `c` up to `c'`. */
  lemma Skip(input: string, o: Options, r: seq<Variant>, c: Cursor, c': Cursor)
    requires Reached(input, o, r, c)
    requires forall e {:trigger Turn(e)} | IsEdit(input, o, e) && Earlier(Turn(e), c') :: Earlier(Turn(e), c)
    ensures Reached(input, o, r, c')
  {
  }

  /** One more edit was tried. */
  lemma Step(input: string, o: Options, r: seq<Variant>, r': seq<Variant>, e: Edit, c: Cursor)
    requires Grown(r, r') && Reached(input, o, r, Turn(e)) && Covered(input, o, r', e)
    requires c == Turn(e).(n := Turn(e).n + 1) || c == Turn(e).(at := Turn(e).at + 1, n := 0)
    requires e.Replace? || e.Insert? ==> c.n > 0
    ensures Reached(input, o, r', c)
  {
    GrownCovers(input, o, r, r', Turn(e));
    Tried(input, o, r', e, c);
  }

  // --- The generator ---------------------------------------------------------

  function KeyOf(v: Variant): (r: (string, nat)) {
    (v.spelling, v.consumed)
  }

  lemma StillJustified(input: string, o: Options, r: seq<Variant>, r': seq<Variant>, at: nat)
    requires forall i {:trigger Justified(input, o, r[i])} | 0 <= i < |r| :: Justified(input, o, r[i])
    requires |r| <= |r'| && at < |r'| && Justified(input, o, r'[at])
    requires forall i | 0 <= i < |r'| && i != at :: i < |r| && r'[i] == r[i]
    ensures forall i {:trigger Justified(input, o, r'[i])} | 0 <= i < |r'| :: Justified(input, o, r'[i])
  {
    forall i | 0 <= i < |r'| ensures Justified(input, o, r'[i]) {
      var v := r'[i];
      if i != at {
        assert i < |r|;
        assert Justified(input, o, r[i]);
      }
    }
  }

  class Generator {
    const input: string
    const o: Options
    const leading: nat
    var result: seq<Variant>
    var seen: map<(string, nat), nat>

    ghost predicate Valid()
      reads this
    {
      && Eligible(input, o) && leading == Leading(input, o.maxSyllable + 1)
      && |result| <= o.maxVariants
      && (forall i {:trigger Justified(input, o, result[i])} | 0 <= i < |result| :: Justified(input, o, result[i]))
      && (forall i {:trigger KeyOf(result[i])} | 0 <= i < |result| ::
            KeyOf(result[i]) in seen && seen[KeyOf(result[i])] == i)
      && (forall k {:trigger seen[k]} | k in seen :: seen[k] < |result| && KeyOf(result[seen[k]]) == k)
    }

    constructor (input: string, o: Options, leading: nat)
      requires Eligible(input, o) && leading == Leading(input, o.maxSyllable + 1)
      ensures Valid() && result == [] && this.input == input && this.o == o
    {
      this.input, this.o, this.leading := input, o, leading;
      result, seen := [], map[];
    }

    lemma IsSound()
      requires Valid()
      ensures Sound(input, o, result)
    {
      assert forall i | 0 <= i < |result| :: Justified(input, o, result[i]);
      forall i, j | 0 <= i < j < |result|
        ensures result[i].spelling != result[j].spelling || result[i].consumed != result[j].consumed {
        assert seen[KeyOf(result[i])] == i && seen[KeyOf(result[j])] == j;
      }
    }

    /** Adds one spelling, or lowers the cost of the variant that has it. */
    method Add(spelling: string, consumed: nat, kind: Kind, ghost e: Edit)
      requires Valid()
      requires IsEdit(input, o, e) ==> Matches(input, o, e, spelling, consumed) && KindOf(e) == kind
      requires 2 <= |spelling| <= o.maxSyllable && 2 <= consumed <= leading ==> IsEdit(input, o, e)
      modifies this
      ensures Valid() && Grown(old(result), result)
      ensures |old(result)| < o.maxVariants ==> Covered(input, o, result, e)
    {
      if |result| >= o.maxVariants || |spelling| < 2 || |spelling| > o.maxSyllable || consumed < 2 ||
         consumed > leading {
        if IsEdit(input, o, e) {
          EditsChange(input, o, e);
        }
        return;
      }
      var key := (spelling, consumed);
      var variant := Variant(spelling, consumed, Cost(kind), kind);
      assert Justified(input, o, variant);
      if key !in seen {
        seen := seen[key := |result|];
        result := result + [variant];
        StillJustified(input, o, old(result), result, |old(result)|);
        assert result[|result| - 1] == variant;
        return;
      }
      var i := seen[key];
      if Cost(kind) < result[i].cost {
        result := result[i := variant];
        StillJustified(input, o, old(result), result, i);
      }
      assert result[i].spelling == spelling && result[i].cost <= Cost(kind);
    }

    method Replacements(length: nat, ghost used: nat)
      requires Valid() && o.neighbour && 2 <= length <= o.maxSyllable && length <= leading && |result| <= used
      modifies this
      ensures Valid() && |result| <= used + 6 * length
      ensures used + 6 * length <= o.maxVariants && Reached(input, o, old(result), Cursor(1, length, 0, 0, 0)) ==>
                Reached(input, o, result, Cursor(1, length, 0, length, 0))
    {
      ghost var full := used + 6 * length <= o.maxVariants && Reached(input, o, result, Cursor(1, length, 0, 0, 0));
      var prefix := input[..length];
      for position := 0 to length
        invariant Valid() && |result| <= used + 6 * position
        invariant full ==> Reached(input, o, result, Cursor(1, length, 0, position, 0))
      {
        var neighbours := Neighbours(prefix[position]);
        for index := 0 to |neighbours|
          invariant Valid() && |result| <= used + 6 * position + index
          invariant full ==> Reached(input, o, result, Cursor(1, length, 0, position, index))
        {
          ghost var e, before := Replace(length, position, index), result;
          Add(prefix[position := neighbours[index]], length, Neighbour, e);
          if full {
            Step(input, o, before, result, e, Cursor(1, length, 0, position, index + 1));
          }
        }
        if full {
          Skip(input, o, result, Cursor(1, length, 0, position, |neighbours|), Cursor(1, length, 0, position + 1, 0));
        }
      }
    }

    method Swaps(length: nat, ghost used: nat)
      requires Valid() && o.transposition && 2 <= length <= o.maxSyllable && length <= leading && |result| <= used
      modifies this
      ensures Valid() && |result| <= used + (length - 1)
      ensures used + (length - 1) <= o.maxVariants && Reached(input, o, old(result), Cursor(1, length, 1, 0, 0)) ==>
                Reached(input, o, result, Cursor(1, length, 1, length - 1, 0))
    {
      ghost var full := used + (length - 1) <= o.maxVariants && Reached(input, o, result, Cursor(1, length, 1, 0, 0));
      var prefix := input[..length];
      for position := 0 to length - 1
        invariant Valid() && |result| <= used + position
        invariant full ==> Reached(input, o, result, Cursor(1, length, 1, position, 0))
      {
        ghost var e, before := Swap(length, position), result;
        if prefix[position] != prefix[position + 1] {
          Add(prefix[position := prefix[position + 1]][position + 1 := prefix[position]], length, Transposition, e);
        }
        if full {
          Step(input, o, before, result, e, Cursor(1, length, 1, position + 1, 0));
        }
      }
    }

    method Removals(length: nat, ghost used: nat)
      requires Valid() && o.extraKey && 3 <= length <= leading && |result| <= used
      modifies this
      ensures Valid() && |result| <= used + length
      ensures used + length <= o.maxVariants && Reached(input, o, old(result), Cursor(2, length, 0, 0, 0)) ==>
                Reached(input, o, result, Cursor(2, length, 0, length, 0))
    {
      ghost var full := used + length <= o.maxVariants && Reached(input, o, result, Cursor(2, length, 0, 0, 0));
      var prefix := input[..length];
      for position := 0 to length
        invariant Valid() && |result| <= used + position
        invariant full ==> Reached(input, o, result, Cursor(2, length, 0, position, 0))
      {
        ghost var e, before := Remove(length, position), result;
        assert prefix[..position] == input[..position] && prefix[position + 1..] == input[position + 1..length];
        Add(prefix[..position] + prefix[position + 1..], length, ExtraKey, e);
        if full {
          Step(input, o, before, result, e, Cursor(2, length, 0, position + 1, 0));
        }
      }
    }

    method Insertions(length: nat, ghost used: nat)
      requires Valid() && o.missingKey && 2 <= length < o.maxSyllable && length <= leading && |result| <= used
      modifies this
      ensures Valid() && |result| <= used + 26 * (length + 1)
      ensures used + 26 * (length + 1) <= o.maxVariants &&
              Reached(input, o, old(result), Cursor(3, length, 0, 0, 0)) ==>
                Reached(input, o, result, Cursor(3, length, 0, length + 1, 0))
    {
      ghost var full := used + 26 * (length + 1) <= o.maxVariants &&
          Reached(input, o, result, Cursor(3, length, 0, 0, 0));
      var prefix := input[..length];
      for position := 0 to length + 1
        invariant Valid() && |result| <= used + 26 * position
        invariant full ==> Reached(input, o, result, Cursor(3, length, 0, position, 0))
      {
        for letter := 0 to 26
          invariant Valid() && |result| <= used + 26 * position + letter
          invariant full ==> Reached(input, o, result, Cursor(3, length, 0, position, letter))
        {
          ghost var e, before := Insert(length, position, letter), result;
          assert prefix[..position] == input[..position] && prefix[position..] == input[position..length];
          Add(prefix[..position] + [Letter(letter)] + prefix[position..], length, MissingKey, e);
          if full {
            Step(input, o, before, result, e, Cursor(3, length, 0, position, letter + 1));
          }
        }
        if full {
          Skip(input, o, result, Cursor(3, length, 0, position, 26), Cursor(3, length, 0, position + 1, 0));
        }
      }
    }
  }

  // --- The whole generator ---------------------------------------------------

  lemma {:induction false} SameLengthGrows(a: nat, b: nat)
    requires a <= b
    ensures SameLength(a) <= SameLength(b)
    decreases b
  {
    if a < b {
      SameLengthGrows(a, b - 1);
    }
  }

  lemma {:induction false} ShorterGrows(a: nat, b: nat)
    requires a <= b
    ensures Shorter(a) <= Shorter(b)
    decreases b
  {
    if a < b {
      ShorterGrows(a, b - 1);
    }
  }

  lemma {:induction false} LongerGrows(a: nat, b: nat)
    requires a <= b
    ensures Longer(a) <= Longer(b)
    decreases b
  {
    if a < b {
      LongerGrows(a, b - 1);
    }
  }

  method LeadingLowerAscii(input: string, limit: nat) returns (length: nat)
    ensures length == Leading(input, limit)
  {
    length := 0;
    while length < |input| && length < limit && Lower(input[length])
      invariant length <= Leading(input, limit)
    {
      length := length + 1;
    }
  }

  lemma RemovalsOf(input: string, o: Options, r: seq<Variant>, length: nat)
    requires Reached(input, o, r, Cursor(2, length, 0, length, 0))
    ensures Reached(input, o, r, Cursor(2, length + 1, 0, 0, 0))
  {
    Skip(input, o, r, Cursor(2, length, 0, length, 0), Cursor(2, length + 1, 0, 0, 0));
  }

  lemma RemovalsBegin(input: string, o: Options, r: seq<Variant>)
    requires Reached(input, o, r, Cursor(2, 0, 0, 0, 0))
    ensures Reached(input, o, r, Cursor(2, 3, 0, 0, 0))
    ensures !o.extraKey ==> Reached(input, o, r, Cursor(3, 0, 0, 0, 0))
  {
    Skip(input, o, r, Cursor(2, 0, 0, 0, 0), Cursor(2, 3, 0, 0, 0));
    if !o.extraKey {
      Skip(input, o, r, Cursor(2, 0, 0, 0, 0), Cursor(3, 0, 0, 0, 0));
    }
  }

  lemma RemovalsEnd(input: string, o: Options, r: seq<Variant>, limit: nat)
    requires Eligible(input, o) && limit >= Leading(input, o.maxSyllable + 1) &&
             Reached(input, o, r, Cursor(2, limit + 1, 0, 0, 0))
    ensures Reached(input, o, r, Cursor(3, 0, 0, 0, 0))
  {
    Skip(input, o, r, Cursor(2, limit + 1, 0, 0, 0), Cursor(3, 0, 0, 0, 0));
  }

  lemma InsertionsOf(input: string, o: Options, r: seq<Variant>, length: nat)
    requires Reached(input, o, r, Cursor(3, length, 0, length + 1, 0))
    ensures Reached(input, o, r, Cursor(3, length + 1, 0, 0, 0))
  {
    Skip(input, o, r, Cursor(3, length, 0, length + 1, 0), Cursor(3, length + 1, 0, 0, 0));
  }

  lemma InsertionsBegin(input: string, o: Options, r: seq<Variant>)
    requires Reached(input, o, r, Cursor(3, 0, 0, 0, 0))
    ensures Reached(input, o, r, Cursor(3, 2, 0, 0, 0))
    ensures !o.missingKey ==> Complete(input, o, r)
  {
    Skip(input, o, r, Cursor(3, 0, 0, 0, 0), Cursor(3, 2, 0, 0, 0));
    if !o.missingKey {
      forall e ensures Covered(input, o, r, e) {
        assert IsEdit(input, o, e) ==> Earlier(Turn(e), Cursor(3, 0, 0, 0, 0));
      }
    }
  }

  lemma InsertionsEnd(input: string, o: Options, r: seq<Variant>, limit: nat)
    requires Eligible(input, o) && Reached(input, o, r, Cursor(3, limit + 1, 0, 0, 0))
    requires limit >= Leading(input, o.maxSyllable + 1) || limit >= o.maxSyllable - 1
    ensures Complete(input, o, r)
  {
    forall e ensures Covered(input, o, r, e) {
      assert IsEdit(input, o, e) ==> Earlier(Turn(e), Cursor(3, limit + 1, 0, 0, 0));
    }
  }

  lemma ReviewDone(input: string, o: Options, r: seq<Variant>)
    requires Covered(input, o, r, Review)
    ensures Reached(input, o, r, Cursor(1, 0, 0, 0, 0))
  {
  }

  /** Both kinds of edit that keep the length, for one prefix. */
  method SameLengthStep(g: Generator, length: nat, ghost full: bool, ghost used: nat)
    requires g.Valid() && 2 <= length <= g.o.maxSyllable && length <= g.leading && |g.result| <= used
    requires full ==>
               used + 6 * length + (length - 1) <= g.o.maxVariants &&
                   Reached(g.input, g.o, g.result, Cursor(1, length, 0, 0, 0))
    modifies g
    ensures g.Valid() && |g.result| <= used + 6 * length + (length - 1)
    ensures full ==> Reached(g.input, g.o, g.result, Cursor(1, length + 1, 0, 0, 0))
  {
    var input, o := g.input, g.o;
    if o.neighbour {
      g.Replacements(length, used);
    }
    if full {
      Skip(input, o, g.result, if o.neighbour then Cursor(1, length, 0, length, 0) else Cursor(1, length, 0, 0, 0),
           Cursor(1, length, 1, 0, 0));
    }
    if o.transposition {
      g.Swaps(length, used + 6 * length);
    }
    if full {
      Skip(input, o, g.result, if o.transposition then Cursor(1, length, 1, length - 1, 0)
             else Cursor(1, length, 1, 0, 0),
           Cursor(1, length + 1, 0, 0, 0));
    }
  }

  method SameLengthEdits(g: Generator, ghost full: bool)
    requires g.Valid() && |g.result| <= 1
    requires full ==>
               1 + SameLength(g.o.maxSyllable) <= g.o.maxVariants &&
                   Reached(g.input, g.o, g.result, Cursor(1, 0, 0, 0, 0))
    modifies g
    ensures g.Valid() && |g.result| <= 1 + SameLength(g.o.maxSyllable)
    ensures full ==> Reached(g.input, g.o, g.result, Cursor(2, 0, 0, 0, 0))
  {
    var input, o := g.input, g.o;
    var limit := if g.leading < o.maxSyllable then g.leading else o.maxSyllable;
    if full {
      Skip(input, o, g.result, Cursor(1, 0, 0, 0, 0), Cursor(1, 2, 0, 0, 0));
    }
    for length := 2 to limit + 1
      invariant g.Valid() && |g.result| <= 1 + SameLength(length - 1)
      invariant full ==> Reached(input, o, g.result, Cursor(1, length, 0, 0, 0))
    {
      SameLengthGrows(length, o.maxSyllable);
      SameLengthStep(g, length, full, 1 + SameLength(length - 1));
    }
    SameLengthGrows(limit, o.maxSyllable);
    if full {
      Skip(input, o, g.result, Cursor(1, limit + 1, 0, 0, 0), Cursor(2, 0, 0, 0, 0));
    }
  }

  method ShorterStep(g: Generator, length: nat, ghost full: bool, ghost used: nat)
    requires g.Valid() && g.o.extraKey && 3 <= length <= g.leading && |g.result| <= used
    requires full ==> used + length <= g.o.maxVariants && Reached(g.input, g.o, g.result, Cursor(2, length, 0, 0, 0))
    modifies g
    ensures g.Valid() && |g.result| <= used + length
    ensures full ==> Reached(g.input, g.o, g.result, Cursor(2, length + 1, 0, 0, 0))
  {
    g.Removals(length, used);
    if full {
      RemovalsOf(g.input, g.o, g.result, length);
    }
  }

  method LongerStep(g: Generator, length: nat, ghost full: bool, ghost used: nat)
    requires g.Valid() && g.o.missingKey && 2 <= length < g.o.maxSyllable && length <= g.leading && |g.result| <= used
    requires full ==>
               used + 26 * (length + 1) <= g.o.maxVariants &&
                   Reached(g.input, g.o, g.result, Cursor(3, length, 0, 0, 0))
    modifies g
    ensures g.Valid() && |g.result| <= used + 26 * (length + 1)
    ensures full ==> Reached(g.input, g.o, g.result, Cursor(3, length + 1, 0, 0, 0))
  {
    g.Insertions(length, used);
    if full {
      InsertionsOf(g.input, g.o, g.result, length);
    }
  }

  method ShorterEdits(g: Generator, ghost full: bool, ghost used: nat)
    requires g.Valid() && |g.result| <= used
    requires full ==>
               used + Shorter(g.o.maxSyllable + 1) <= g.o.maxVariants &&
                   Reached(g.input, g.o, g.result, Cursor(2, 0, 0, 0, 0))
    modifies g
    ensures g.Valid() && |g.result| <= used + Shorter(g.o.maxSyllable + 1)
    ensures full ==> Reached(g.input, g.o, g.result, Cursor(3, 0, 0, 0, 0))
  {
    var input, o := g.input, g.o;
    if full {
      RemovalsBegin(input, o, g.result);
    }
    if o.extraKey {
      var limit := if g.leading < o.maxSyllable + 1 then g.leading else o.maxSyllable + 1;
      for length := 3 to limit + 1
        invariant g.Valid() && |g.result| <= used + Shorter(length - 1)
        invariant full ==> Reached(input, o, g.result, Cursor(2, length, 0, 0, 0))
      {
        ShorterGrows(length, o.maxSyllable + 1);
        ShorterStep(g, length, full, used + Shorter(length - 1));
      }
      ShorterGrows(limit, o.maxSyllable + 1);
      if full {
        RemovalsEnd(input, o, g.result, limit);
      }
    }
  }

  method LongerEdits(g: Generator, ghost full: bool, ghost used: nat)
    requires g.Valid() && |g.result| <= used
    requires full ==>
               used + Longer(g.o.maxSyllable - 1) <= g.o.maxVariants &&
                   Reached(g.input, g.o, g.result, Cursor(3, 0, 0, 0, 0))
    modifies g
    ensures g.Valid()
    ensures full ==> Complete(g.input, g.o, g.result)
  {
    var input, o := g.input, g.o;
    if full {
      InsertionsBegin(input, o, g.result);
    }
    if o.missingKey {
      var limit := if g.leading < o.maxSyllable - 1 then g.leading else o.maxSyllable - 1;
      for length := 2 to limit + 1
        invariant g.Valid() && |g.result| <= used + Longer(length - 1)
        invariant full ==> Reached(input, o, g.result, Cursor(3, length, 0, 0, 0))
      {
        LongerGrows(length, o.maxSyllable - 1);
        LongerStep(g, length, full, used + Longer(length - 1));
      }
      if full {
        InsertionsEnd(input, o, g.result, limit);
      }
    }
  }

  /** Sound for all limits; complete whenever the cap leaves room for the bound. */
  method GenerateTypoVariants(input: string, o: Options) returns (r: seq<Variant>)
    ensures Sound(input, o, r) && |r| <= o.maxVariants
    ensures o.maxSyllable < 2 || o.maxVariants >= Bound(o.maxSyllable) ==> Complete(input, o, r)
  {
    if input == "" || |input| >= o.maxInput || o.maxSyllable < 2 || o.maxVariants == 0 {
      return [];
    }
    var leading := LeadingLowerAscii(input, o.maxSyllable + 1);
    if leading < 2 {
      return [];
    }
    var g := new Generator(input, o, leading);
    if o.reviewed && |input| >= |TYPED| && input[..|TYPED|] == TYPED {
      g.Add(INTENDED, |TYPED|, ReviewedConfusion, Review);
    }
    ReviewDone(input, o, g.result);
    ghost var full := o.maxVariants >= Bound(o.maxSyllable);
    SameLengthEdits(g, full);
    ShorterEdits(g, full, 1 + SameLength(o.maxSyllable));
    LongerEdits(g, full, 1 + SameLength(o.maxSyllable) + Shorter(o.maxSyllable + 1));
    r := g.result;
    g.IsSound();
  }
}
