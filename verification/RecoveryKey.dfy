/** The recovery text of protocol/bech32m.go: a 32-byte key written in the
    Bech32m form (section "Bech32" of BIP-173, section "Bech32m" of BIP-350) under
    the human-readable prefix "yprec". A text is the sequence of its characters;
    a text that decodes is ASCII once in lower case, so there they are its bytes. */
module RecoveryKey {
  import opened Order
  import opened Bits
  import opened Radix
  import opened Checksum
  import opened Wrappers

  const HRP: string := "yprec"
  const CHARSET: string := "qpzry9x8gf2tvdw0s3jn54khce6mua7l"

  // --- Characters ------------------------------------------------------------

  ghost predicate Alphabet(a: string) {
    && |a| == 32
    && (forall i | 0 <= i < 32 :: Plain(a[i]) && a[i] != '1')
    && (forall i, j | 0 <= i < j < 32 :: a[i] != a[j])
  }

  /** A lower-case ASCII letter or digit. */
  predicate Plain(c: char) {
    'a' <= c <= 'z' || '0' <= c <= '9'
  }

  lemma CharsetDistinct(i: nat, j: nat)
    requires i < j < 32
    ensures CHARSET[i] != CHARSET[j]
  {
    if i < 16 {
      if i < 8 {
      }
    } else if i < 24 {
    }
  }

  lemma CharsetPlain(i: nat)
    requires i < 32
    ensures Plain(CHARSET[i]) && CHARSET[i] != '1'
  {
  }

  lemma CharsetIsAlphabet()
    ensures Alphabet(CHARSET)
  {
    forall i | 0 <= i < 32 ensures Plain(CHARSET[i]) && CHARSET[i] != '1' {
      CharsetPlain(i);
    }
    forall i, j | 0 <= i < j < 32 ensures CHARSET[i] != CHARSET[j] {
      CharsetDistinct(i, j);
    }
  }

  ghost function Spell(a: string, values: seq<nat>): (r: string)
    requires |a| == 32 && Digits(values, 32)
    ensures |r| == |values|
  {
    seq(|values|, i requires 0 <= i < |values| => a[values[i]])
  }

  lemma SpellDetermines(a: string, v: seq<nat>, w: seq<nat>)
    requires Alphabet(a) && Digits(v, 32) && Digits(w, 32) && Spell(a, v) == Spell(a, w)
    ensures v == w
  {
    assert |v| == |w|;
    forall i | 0 <= i < |v| ensures v[i] == w[i] {
      assert a[v[i]] == Spell(a, v)[i] == Spell(a, w)[i] == a[w[i]];
    }
  }

  function FirstIndex(s: string, c: char): (r: int)
    ensures -1 <= r < |s|
    ensures r >= 0 ==> s[r] == c
    ensures r < 0 ==> c !in s
  {
    if s == [] then -1 else if s[0] == c then 0
    else var rest := FirstIndex(s[1..], c); if rest < 0 then -1 else rest + 1
  }

  function LastIndex(s: string, c: char): (r: int)
    ensures -1 <= r < |s|
    ensures r >= 0 ==> s[r] == c
    ensures forall i | r < i < |s| :: s[i] != c
  {
    if s == [] then -1 else if s[|s| - 1] == c then |s| - 1 else LastIndex(s[..|s| - 1], c)
  }

  // --- The format ------------------------------------------------------------

  /** The prefix as checksum values. */
  function Expanded(hrp: string): (r: seq<nat>) {
    seq(|hrp|, i requires 0 <= i < |hrp| => High(hrp[i] as int, 5)) + [0] +
    seq(|hrp|, i requires 0 <= i < |hrp| => Low(hrp[i] as int, 5))
  }

  method ExpandHrp(hrp: string) returns (values: seq<nat>)
    ensures values == Expanded(hrp)
  {
    values := [];
    for i := 0 to |hrp|
      invariant values == seq(i, j requires 0 <= j < i => High(hrp[j] as int, 5))
    {
      values := values + [High(hrp[i] as int, 5)];
    }
    values := values + [0];
    ghost var high := values;
    for i := 0 to |hrp|
      invariant values == high + seq(i, j requires 0 <= j < i => Low(hrp[j] as int, 5))
    {
      values := values + [Low(hrp[i] as int, 5)];
    }
  }

  /** `values` are the data and six check symbols of a text that encodes `key`:
      the checksum is right and the data hold the bits of the key, then fewer than
      five zeros. */
  ghost predicate Spells(a: string, key: seq<nat>, values: seq<nat>, text: string)
    requires |a| == 32
  {
    && |key| == 32 && |values| >= 6 && Digits(values, 32)
    && text == HRP + "1" + Spell(a, values)
    && Run(1, Expanded(HRP) + values) == BECH32M
    && Unpadded(values[..|values| - 6], 5, key, 8)
  }

  ghost predicate IsText(key: seq<nat>, text: string) {
    exists values :: Spells(CHARSET, key, values, text)
  }

  lemma SpellsShape(a: string, key: seq<nat>, values: seq<nat>, text: string)
    requires Alphabet(a) && Spells(a, key, values, text)
    ensures |values| == 58 && |text| == 64 && text[..5] == HRP && text[6..] == Spell(a, values)
    ensures LastIndex(text, '1') == 5
  {
    var data := values[..|values| - 6];
    FlatLength(data, 5);
    FlatLength(key, 8);
    assert text[5] == '1';
    assert forall i | 6 <= i < |text| :: text[i] == a[values[i - 6]];
  }

  /** A text encodes at most one key. */
  lemma TextDeterminesKey(key: seq<nat>, other: seq<nat>, text: string)
    requires IsText(key, text) && IsText(other, text)
    ensures key == other
  {
    CharsetIsAlphabet();
    var v :| Spells(CHARSET, key, v, text);
    var w :| Spells(CHARSET, other, w, text);
    SameText(CHARSET, key, v, other, w, text);
  }

  lemma SameText(a: string, key: seq<nat>, v: seq<nat>, other: seq<nat>, w: seq<nat>, text: string)
    requires Alphabet(a) && Spells(a, key, v, text) && Spells(a, other, w, text)
    ensures v == w && key == other
  {
    SpellsShape(a, key, v, text);
    SpellsShape(a, other, w, text);
    SpellDetermines(a, v, w);
    UnpaddedDetermines(v[..|v| - 6], 5, key, other, 8);
  }

  /** A key has at most one text. */
  lemma KeyDeterminesText(key: seq<nat>, text: string, other: string)
    requires IsText(key, text) && IsText(key, other)
    ensures text == other
  {
    CharsetIsAlphabet();
    var v :| Spells(CHARSET, key, v, text);
    var w :| Spells(CHARSET, key, w, other);
    SameKey(CHARSET, key, v, text, w, other);
  }

  lemma SameData(d: seq<nat>, e: seq<nat>, key: seq<nat>)
    requires |d| == |e| && Digits(d, 32) && Digits(e, 32) && Unpadded(d, 5, key, 8) && Unpadded(e, 5, key, 8)
    ensures d == e
  {
    FlatLength(d, 5);
    FlatLength(e, 5);
    assert Pow2(5) == 32;
    FlatDetermines(d, e, 5);
  }

  lemma SameCheck(body: seq<nat>, c: seq<nat>, d: seq<nat>)
    requires |c| == |d| == 6 && Digits(c, 32) && Digits(d, 32) && Run(1, body + c) == BECH32M &&
             Run(1, body + d) == BECH32M
    ensures c == d
  {
    CheckValues(body, c);
    CheckValues(body, d);
    NumInjective(c, d, 32);
  }

  lemma SplitAt(prefix: seq<nat>, values: seq<nat>, n: nat)
    requires n <= |values|
    ensures prefix + values == (prefix + values[..n]) + values[n..] && values == values[..n] + values[n..]
  {
  }

  lemma SameKey(a: string, key: seq<nat>, v: seq<nat>, text: string, w: seq<nat>, other: string)
    requires Alphabet(a) && Spells(a, key, v, text) && Spells(a, key, w, other)
    ensures v == w
  {
    SpellsShape(a, key, v, text);
    SpellsShape(a, key, w, other);
    SameData(v[..52], w[..52], key);
    SplitAt(Expanded(HRP), v, 52);
    SplitAt(Expanded(HRP), w, 52);
    SameCheck(Expanded(HRP) + v[..52], v[52..], w[52..]);
  }

  // --- Encoding --------------------------------------------------------------

  lemma {:induction false} ShiftTwice(p: nat, a: nat, b: nat)
    ensures High(High(p, a), b) == High(p, a + b)
    decreases a
  {
    if a > 0 {
      ShiftTwice(p / 2, a - 1, b);
    }
  }

  /** Five bits per symbol. */
  const SYMBOL: nat := 5

  lemma NextDigit(digits: seq<nat>, p: nat, a: nat)
    requires Digits(digits, 32) && Num(digits, 32) == High(p, a + 5)
    ensures Digits(digits + [Low(High(p, a), SYMBOL)], 32) && Num(digits + [Low(High(p, a), SYMBOL)], 32) == High(p, a)
  {
    SplitWord(High(p, a), 5);
    ShiftTwice(p, a, 5);
    ShiftFive(High(p, a + 5));
    NumAppend(digits, Low(High(p, a), 5), 32);
    assert Pow2(5) == 32;
  }

  /** The six check symbols of a 30-bit word. */
  method CheckSymbols(polymod: nat) returns (checksum: seq<nat>)
    requires High(polymod, 30) == 0
    ensures |checksum| == 6 && Digits(checksum, 32) && Num(checksum, 32) == polymod
  {
    checksum := [];
    for index := 0 to 6
      invariant |checksum| == index && Digits(checksum, 32)
      invariant Num(checksum, 32) == High(polymod, 30 - 5 * index)
    {
      var shift := 5 * (5 - index);
      NextDigit(checksum, polymod, shift);
      checksum := checksum + [Low(High(polymod, shift), SYMBOL)];
    }
  }

  method SpellOut(values: seq<nat>) returns (text: string)
    requires Digits(values, 32)
    ensures text == Spell(CHARSET, values)
  {
    text := "";
    for i := 0 to |values|
      invariant text == Spell(CHARSET, values[..i])
    {
      text := text + [CHARSET[values[i]]];
      assert text == Spell(CHARSET, values[..i + 1]);
    }
    assert values[..|values|] == values;
  }

  lemma {:induction false} RunBound(c: nat, values: seq<nat>)
    requires values != [] && values[|values| - 1] < 32
    ensures Run(c, values) < Pow2(30)
  {
    StepBound(Run(c, values[..|values| - 1]), values[|values| - 1]);
  }

  /** The check symbols that complete a body. */
  method CheckFor(body: seq<nat>) returns (checksum: seq<nat>)
    ensures |checksum| == 6 && Digits(checksum, 32) && Run(1, body + checksum) == BECH32M
  {
    RunBound(1, body + Zeros(6));
    Pow2Values();
    XorBound(Run(1, body + Zeros(6)), BECH32M, 30);
    var polymod := Polymod(body + Zeros(6));
    polymod := Xor(polymod, BECH32M);
    SmallWord(polymod, 30);
    checksum := CheckSymbols(polymod);
    CheckValues(body, checksum);
  }

  lemma EncodedSpells(key: seq<nat>, data: seq<nat>, checksum: seq<nat>, text: string)
    requires |key| == 32 && Unpadded(data, 5, key, 8)
    requires |checksum| == 6 && Digits(data, 32) && Digits(checksum, 32)
    requires Run(1, (Expanded(HRP) + data) + checksum) == BECH32M
    requires text == HRP + "1" + Spell(CHARSET, data + checksum)
    ensures IsText(key, text)
  {
    var values := data + checksum;
    assert values[..|values| - 6] == data;
    assert Expanded(HRP) + values == (Expanded(HRP) + data) + checksum;
    assert Spells(CHARSET, key, values, text);
  }

  method EncodeRecoveryKey(key: Bytes) returns (r: Result<string>)
    ensures r.Ok? <==> |key| == 32
    ensures r.Ok? ==> IsText(key, r.value)
  {
    if |key| != 32 {
      return Err;
    }
    assert Pow2(5) == 32 && Pow2(8) == 256;
    var converted := ConvertBits(key, 8, 5, true);
    var data := converted.value;
    PaddedIsUnpadded(key, 8, data, 5);
    var expanded := ExpandHrp(HRP);
    var checksum := CheckFor(expanded + data);
    var encoded := SpellOut(data + checksum);
    EncodedSpells(key, data, checksum, HRP + "1" + encoded);
    return Ok(HRP + "1" + encoded);
  }

  // --- Decoding --------------------------------------------------------------

  /** The text is not mixed-case, and its lower-case form encodes the key. The two
      case mappings are those of the standard library. */
  ghost predicate Accepted(lower: string -> string, upper: string -> string, text: string, key: seq<nat>) {
    (text == lower(text) || text == upper(text)) && IsText(key, lower(text))
  }

  method ReadSymbols(text: string) returns (r: Result<seq<nat>>)
    ensures r.Ok? ==> Digits(r.value, 32) && Spell(CHARSET, r.value) == text
    ensures r.Err? ==> exists i | 0 <= i < |text| :: text[i] !in CHARSET
  {
    var values: seq<nat> := [];
    for i := 0 to |text|
      invariant |values| == i && Digits(values, 32) && Spell(CHARSET, values) == text[..i]
    {
      var index := FirstIndex(CHARSET, text[i]);
      if index < 0 {
        return Err;
      }
      values := values + [index];
    }
    assert text[..|text|] == text;
    return Ok(values);
  }

  method DecodeRecoveryKey(text: string, lower: string -> string, upper: string -> string) returns (r: Result<Bytes>)
    ensures r.Ok? ==> Accepted(lower, upper, text, r.value)
    ensures r.Err? ==> forall key: Bytes :: !Accepted(lower, upper, text, key)
  {
    if text != lower(text) && text != upper(text) {
      return Err;
    }
    var encoded := lower(text);
    r := DecodeLower(encoded);
  }

  lemma SymbolsInCharset(key: seq<nat>, text: string, i: nat)
    requires IsText(key, text) && 6 <= i < |text|
    ensures text[i] in CHARSET
  {
    var values :| Spells(CHARSET, key, values, text);
    SpelledAt(CHARSET, key, values, text, i);
  }

  lemma SpelledAt(a: string, key: seq<nat>, values: seq<nat>, text: string, i: nat)
    requires |a| == 32 && Spells(a, key, values, text) && 6 <= i < |text|
    ensures i - 6 < |values| && text[i] == a[values[i - 6]] && text[i] in a
  {
  }

  lemma TextShape(key: seq<nat>, text: string)
    requires IsText(key, text)
    ensures |text| == 64 && LastIndex(text, '1') == 5 && text[..5] == HRP
  {
    CharsetIsAlphabet();
    var values :| Spells(CHARSET, key, values, text);
    SpellsShape(CHARSET, key, values, text);
  }

  /** A text with this prefix and these symbols encodes exactly the keys its
      symbols do. */
  lemma TextOfValues(key: seq<nat>, values: seq<nat>, text: string)
    requires Digits(values, 32) && text == HRP + "1" + Spell(CHARSET, values) && IsText(key, text)
    ensures Spells(CHARSET, key, values, text)
  {
    CharsetIsAlphabet();
    var other :| Spells(CHARSET, key, other, text);
    SpellsShape(CHARSET, key, other, text);
    assert text[6..] == Spell(CHARSET, values);
    SpellDetermines(CHARSET, values, other);
  }

  /** The part of the decoder after case folding. */
  method DecodeLower(encoded: string) returns (r: Result<Bytes>)
    ensures r.Ok? ==> IsText(r.value, encoded)
    ensures r.Err? ==> forall key: Bytes :: !IsText(key, encoded)
  {
    var separator := LastIndex(encoded, '1');
    forall key: Bytes | IsText(key, encoded) ensures |encoded| == 64 && separator == 5 && encoded[..5] == HRP {
      TextShape(key, encoded);
    }
    if separator <= 0 || separator + 7 > |encoded| {
      return Err;
    }
    if encoded[..separator] != HRP {
      return Err;
    }
    forall key: Bytes, i | IsText(key, encoded) && 0 <= i < |encoded[6..]| ensures encoded[6..][i] in CHARSET {
      SymbolsInCharset(key, encoded, i + 6);
    }
    var symbols := ReadSymbols(encoded[separator + 1..]);
    if symbols.Err? {
      return Err;
    }
    assert encoded == HRP + "1" + encoded[6..];
    r := DecodeValues(encoded, symbols.value);
  }

  method DecodeValues(ghost encoded: string, values: seq<nat>) returns (r: Result<Bytes>)
    requires |values| >= 6 && Digits(values, 32) && encoded == HRP + "1" + Spell(CHARSET, values)
    ensures r.Ok? ==> IsText(r.value, encoded)
    ensures r.Err? ==> forall key: Bytes :: !IsText(key, encoded)
  {
    forall key: Bytes | IsText(key, encoded) ensures Spells(CHARSET, key, values, encoded) {
      TextOfValues(key, values, encoded);
    }
    var expanded := ExpandHrp(HRP);
    var polymod := Polymod(expanded + values);
    if polymod != BECH32M {
      return Err;
    }
    var decoded := ConvertBits(values[..|values| - 6], 5, 8, false);
    assert Pow2(5) == 32 && Pow2(8) == 256;
    if decoded.Err? {
      return Err;
    }
    forall key: Bytes | IsText(key, encoded) ensures |key| == |decoded.value| {
      UnpaddedDetermines(values[..|values| - 6], 5, key, decoded.value, 8);
    }
    if |decoded.value| != 32 {
      return Err;
    }
    assert Spells(CHARSET, decoded.value, values, encoded);
    return Ok(decoded.value);
  }

  // --- Round trips and errors ------------------------------------------------

  predicate Ascii(text: string) {
    forall i | 0 <= i < |text| :: text[i] < 128 as char
  }

  function LowerChar(c: char): (r: char) {
    if 'A' <= c <= 'Z' then c + 32 as char else c
  }

  function UpperChar(c: char): (r: char) {
    if 'a' <= c <= 'z' then c - 32 as char else c
  }

  function LowerAscii(text: string): (r: string)
    ensures |r| == |text|
  {
    seq(|text|, i requires 0 <= i < |text| => LowerChar(text[i]))
  }

  function UpperAscii(text: string): (r: string)
    ensures |r| == |text|
  {
    seq(|text|, i requires 0 <= i < |text| => UpperChar(text[i]))
  }

  /** What is assumed of the case mappings: on ASCII they are the ASCII ones. */
  ghost predicate CaseMaps(lower: string -> string, upper: string -> string) {
    forall text | Ascii(text) :: lower(text) == LowerAscii(text) && upper(text) == UpperAscii(text)
  }

  lemma SpellsPlain(a: string, key: seq<nat>, values: seq<nat>, text: string)
    requires Alphabet(a) && Spells(a, key, values, text)
    ensures forall i | 0 <= i < |text| :: Plain(text[i])
  {
    forall i | 6 <= i < |text| ensures Plain(text[i]) {
      SpelledAt(a, key, values, text, i);
    }
  }

  lemma TextIsPlain(key: seq<nat>, text: string)
    requires IsText(key, text)
    ensures Ascii(text) && LowerAscii(text) == text
  {
    CharsetIsAlphabet();
    var values :| Spells(CHARSET, key, values, text);
    SpellsPlain(CHARSET, key, values, text);
  }

  /** Decoding the encoding of a key gives the key back. */
  method EncodeThenDecode(key: Bytes, lower: string -> string, upper: string -> string) returns (r: Result<Bytes>)
    requires |key| == 32 && CaseMaps(lower, upper)
    ensures r == Ok(key)
  {
    var encoded := EncodeRecoveryKey(key);
    var text := encoded.value;
    TextIsPlain(key, text);
    assert Accepted(lower, upper, text, key);
    r := DecodeRecoveryKey(text, lower, upper);
    TextDeterminesKey(key, r.value, text);
  }

  /** Encoding what a text decodes to gives the lower-case text back. */
  method DecodeThenEncode(text: string, lower: string -> string, upper: string -> string) returns (r: Result<string>)
    ensures r.Ok? <==> exists key: Bytes :: Accepted(lower, upper, text, key)
    ensures r.Ok? ==> r.value == lower(text)
  {
    var decoded := DecodeRecoveryKey(text, lower, upper);
    if decoded.Err? {
      return Err;
    }
    r := EncodeRecoveryKey(decoded.value);
    KeyDeterminesText(decoded.value, r.value, lower(text));
  }

  /** Any change of one character after the separator makes decoding fail. */
  lemma OneCharacterChanged(lower: string -> string, upper: string -> string,
                            text: string, key: seq<nat>, i: nat, c: char, other: seq<nat>)
    requires CaseMaps(lower, upper) && Ascii(text) && Accepted(lower, upper, text, key)
    requires 6 <= i < |text| && c != text[i] && c < 128 as char
    ensures !Accepted(lower, upper, text[i := c], other)
  {
    var changed := text[i := c];
    assert Ascii(changed);
    var folded, folded' := LowerAscii(text), LowerAscii(changed);
    assert folded' == folded[i := LowerChar(c)];
    if folded' == folded {
      TextShape(key, folded);
      CaseChanged(text, i, c);
    } else {
      OneSymbolChanged(key, folded, i, LowerChar(c), other);
    }
  }

  /** For any character, ASCII or not, and any case mapping under which it folds to one
      character `l`: the changed text still decodes exactly when it folds to the same
      text and is not mixed-case. The Kelvin sign for a capital K is such a change. */
  lemma ChangeIsMissedIff(lower: string -> string, upper: string -> string,
                          text: string, key: Bytes, i: nat, c: char, l: char, changed: string)
    requires Accepted(lower, upper, text, key) && 6 <= i < |text| && |lower(text)| == |text|
    requires changed == text[i := c] && lower(changed) == lower(text)[i := l]
    ensures (exists other: Bytes :: Accepted(lower, upper, changed, other)) <==>
              l == lower(text)[i] && (changed == lower(changed) || changed == upper(changed))
  {
    var folded := lower(text);
    if l == folded[i] {
      assert folded[i := l] == folded;
      assert IsText(key, lower(changed));
      assert changed == lower(changed) || changed == upper(changed) ==> Accepted(lower, upper, changed, key);
    } else {
      forall other: Bytes ensures !Accepted(lower, upper, changed, other) {
        OneSymbolChanged(key, folded, i, l, other);
      }
    }
  }

  const KELVIN: char := '\U{212A}'

  /** The case mappings of a library that knows one more letter: the Kelvin sign is
      a capital whose small letter is k. */
  function LowerKelvin(text: string): (r: string) {
    LowerAscii(seq(|text|, i requires 0 <= i < |text| => if text[i] == KELVIN then 'k' else text[i]))
  }

  function UpperKelvin(text: string): (r: string) {
    UpperAscii(text)
  }

  /** A change that is not detected: a capital K becomes the Kelvin sign, and the text
      still decodes to the same key. */
  lemma KelvinSignIsMissed(text: string, key: Bytes, i: nat)
    requires Ascii(text) && Accepted(LowerKelvin, UpperKelvin, text, key) && 6 <= i < |text| && text[i] == 'K'
    ensures CaseMaps(LowerKelvin, UpperKelvin)
    ensures text[i := KELVIN] != text && Accepted(LowerKelvin, UpperKelvin, text[i := KELVIN], key)
  {
    forall other | Ascii(other) ensures LowerKelvin(other) == LowerAscii(other) {
      assert seq(|other|, j requires 0 <= j < |other| => if other[j] == KELVIN then 'k' else other[j]) == other;
    }
    var changed := text[i := KELVIN];
    assert LowerKelvin(changed) == LowerKelvin(text);
    assert text != LowerKelvin(text) by { assert LowerKelvin(text)[i] == 'k'; }
    assert UpperAscii(changed) == changed by {
      assert UpperAscii(text) == text;
      assert forall j | 0 <= j < |text| :: UpperChar(text[j]) == UpperAscii(text)[j];
    }
  }

  /** A change of case alone gives a mixed-case text. */
  lemma CaseChanged(text: string, i: nat, c: char)
    requires 6 <= i < |text| && c != text[i] && LowerAscii(text[i := c]) == LowerAscii(text)
    requires LowerAscii(text)[..5] == HRP
    requires text == LowerAscii(text) || text == UpperAscii(text)
    ensures text[i := c] != LowerAscii(text[i := c]) && text[i := c] != UpperAscii(text[i := c])
  {
    var changed := text[i := c];
    assert LowerChar(text[0]) == LowerAscii(text)[..5][0] == 'y';
    assert LowerChar(c) == LowerAscii(changed)[i] == LowerChar(text[i]);
    assert changed[0] == text[0];
    assert UpperAscii(text)[0] == UpperChar(text[0]) && UpperAscii(changed)[0] == UpperChar(text[0]);
    assert UpperAscii(text)[i] == UpperChar(text[i]) && UpperAscii(changed)[i] == UpperChar(c);
  }

  lemma OneSymbolChanged(key: seq<nat>, text: string, i: nat, c: char, other: seq<nat>)
    requires IsText(key, text) && 6 <= i < |text| && c != text[i]
    ensures !IsText(other, text[i := c])
  {
    CharsetIsAlphabet();
    var values :| Spells(CHARSET, key, values, text);
    forall changed: seq<nat> | Digits(changed, 32) && text[i := c] == HRP + "1" + Spell(CHARSET, changed)
      ensures Run(1, Expanded(HRP) + changed) != BECH32M
    {
      ChecksumBroken(CHARSET, key, text, values, i, c, changed);
    }
  }

  lemma ChecksumBroken(a: string, key: seq<nat>, text: string, values: seq<nat>, i: nat, c: char, changed: seq<nat>)
    requires Alphabet(a) && Spells(a, key, values, text) && 6 <= i < |text| && c != text[i]
    requires Digits(changed, 32) && text[i := c] == HRP + "1" + Spell(a, changed)
    ensures Run(1, Expanded(HRP) + changed) != BECH32M
  {
    SpellsShape(a, key, values, text);
    assert Spell(a, changed) == text[i := c][6..] == text[6..][i - 6 := c];
    OneValueChanged(a, values, changed, i - 6);
    var expanded, k := Expanded(HRP), |Expanded(HRP)| + (i - 6);
    assert (expanded + values)[k := changed[i - 6]] == expanded + changed;
    SingleErrorDetected(expanded + values, k, changed[i - 6]);
  }

  lemma OneValueChanged(a: string, v: seq<nat>, w: seq<nat>, i: nat)
    requires Alphabet(a) && Digits(v, 32) && Digits(w, 32) && i < |v| == |w|
    requires Spell(a, w)[i] != Spell(a, v)[i] && Spell(a, w) == Spell(a, v)[i := Spell(a, w)[i]]
    ensures w == v[i := w[i]] && w[i] != v[i]
  {
    forall j | 0 <= j < |v| && j != i ensures w[j] == v[j] {
      assert a[w[j]] == Spell(a, w)[j] == Spell(a, v)[j] == a[v[j]];
    }
  }
}
