/** The device credential bundle and its one canonical encoding
    (desktopagent/credentials.go). The Ed25519 public key of a seed is a parameter. */
module Credentials {
  import opened Order
  import opened Wrappers
  import opened Records

  const MAGIC: Bytes := [89, 80, 67, 66]
  const VERSION: byte := 1
  const EPOCH_BYTES: nat := 8
  const MAX_BLOB := 65536
  const MAX_TOKEN := 512
  const MAX_EPOCHS := 64
  const MAX_DEVICES := 256
  const MAX_EPOCH: int := 0x7FFF_FFFF_FFFF_FFFF

  type Id = b: Bytes | |b| == 16 witness seq(16, _ => 0)

  datatype Bundle = Bundle(
    version: byte, account: Id, device: Id, token: Bytes,
    signing: Key, x25519: Key, local: Key, objects: Key,
    current: u64, epochs: map<u64, Key>, devices: map<Id, Key>)

  // --- Validation ------------------------------------------------------------

  predicate Zero(b: Bytes) {
    forall i | 0 <= i < |b| :: b[i] == 0
  }

  predicate Base64Url(c: byte) {
    97 <= c <= 122 || 65 <= c <= 90 || 48 <= c <= 57 || c == 45 || c == 95
  }

  predicate ValidToken(token: Bytes) {
    16 <= |token| <= MAX_TOKEN && forall i | 0 <= i < |token| :: Base64Url(token[i])
  }

  ghost predicate Valid(b: Bundle, public: Key -> Key) {
    && b.version == VERSION
    && !Zero(b.account) && !Zero(b.device)
    && ValidToken(b.token)
    && !Zero(b.signing) && !Zero(b.x25519) && !Zero(b.local) && !Zero(b.objects)
    && 1 <= b.current <= MAX_EPOCH && b.current in b.epochs
    && 1 <= |b.epochs| <= MAX_EPOCHS
    && (forall e | e in b.epochs :: 1 <= e <= MAX_EPOCH && !Zero(b.epochs[e]))
    && 1 <= |b.devices| <= MAX_DEVICES
    && (forall d | d in b.devices :: !Zero(d) && !Zero(b.devices[d]))
    && b.device in b.devices && b.devices[b.device] == public(b.signing)
  }

  method Validate(b: Bundle, public: Key -> Key) returns (ok: bool)
    ensures ok <==> Valid(b, public)
  {
    if b.version != VERSION || Zero(b.account) || Zero(b.device) || !ValidToken(b.token) ||
       Zero(b.signing) || Zero(b.x25519) || Zero(b.local) || Zero(b.objects) {
      return false;
    }
    if b.current < 1 || b.current > MAX_EPOCH || |b.epochs| < 1 || |b.epochs| > MAX_EPOCHS {
      return false;
    }
    var epochs := b.epochs.Keys;
    while epochs != {}
      invariant epochs <= b.epochs.Keys
      invariant forall e | e in b.epochs && e !in epochs :: 1 <= e <= MAX_EPOCH && !Zero(b.epochs[e])
    {
      var e :| e in epochs;
      if e < 1 || e > MAX_EPOCH || Zero(b.epochs[e]) {
        return false;
      }
      epochs := epochs - {e};
    }
    if b.current !in b.epochs || |b.devices| < 1 || |b.devices| > MAX_DEVICES {
      return false;
    }
    var devices := b.devices.Keys;
    while devices != {}
      invariant devices <= b.devices.Keys
      invariant forall d | d in b.devices && d !in devices :: !Zero(d) && !Zero(b.devices[d])
    {
      var d :| d in devices;
      if Zero(d) || Zero(b.devices[d]) {
        return false;
      }
      devices := devices - {d};
    }
    return b.device in b.devices && b.devices[b.device] == public(b.signing);
  }

  // --- Layout ----------------------------------------------------------------

  function Earlier(a: u64, b: u64): (r: bool) {
    a < b
  }

  function Before(a: Id, b: Id): (r: bool) {
    Less(a, b)
  }

  function WriteEpoch(e: u64): (r: Bytes) {
    BigEndian(e, EPOCH_BYTES)
  }

  function WriteId(d: Id): (r: Bytes) {
    d
  }

  lemma Orders()
    ensures StrictOrder(Earlier) && StrictOrder(Before)
  {
    forall a: Id, b: Id ensures (a == b || Before(a, b) || Before(b, a)) && (Before(a, b) ==> !Before(b, a)) {
      CompareAntisymmetric(a, b);
    }
    forall a: Id, b: Id, c: Id | Before(a, b) && Before(b, c) ensures Before(a, c) {
      CompareTransitive(a, b, c);
    }
  }

  /** The record up to the epoch table, then `tail`. */
  ghost function Fixed(b: Bundle, tail: Bytes): (r: Bytes) {
    MAGIC + ([b.version] + (b.account + (b.device + (BigEndian(|b.token|, 2) + (b.token + Secrets(b, tail))))))
  }

  ghost function Secrets(b: Bundle, tail: Bytes): (r: Bytes) {
    b.signing + (b.x25519 + (b.local + (b.objects + (BigEndian(b.current, EPOCH_BYTES) + tail))))
  }

  ghost function EpochTable(es: seq<u64>, table: map<u64, Key>, tail: Bytes): (r: Bytes)
    requires forall e | e in es :: e in table
  {
    BigEndian(|es|, 2) + Entries(es, table, WriteEpoch, tail)
  }

  ghost function DeviceTable(ds: seq<Id>, table: map<Id, Key>, tail: Bytes): (r: Bytes)
    requires forall d | d in ds :: d in table
  {
    BigEndian(|ds|, 2) + Entries(ds, table, WriteId, tail)
  }

  ghost predicate Encodes(b: Bundle, es: seq<u64>, ds: seq<Id>, x: Bytes) {
    && Lists(es, b.epochs, Earlier) && Lists(ds, b.devices, Before)
    && x == Fixed(b, EpochTable(es, b.epochs, DeviceTable(ds, b.devices, [])))
  }

  /** `x` is the record of `b`: its tables listed in ascending key order. */
  ghost predicate IsRecord(b: Bundle, x: Bytes) {
    exists es, ds :: Encodes(b, es, ds, x)
  }

  /** A bundle has one record, whatever order its tables are stored in. */
  lemma RecordUnique(b: Bundle, x: Bytes, y: Bytes)
    requires IsRecord(b, x) && IsRecord(b, y)
    ensures x == y
  {
    var es, ds :| Encodes(b, es, ds, x);
    var es', ds' :| Encodes(b, es', ds', y);
    Orders();
    AscendingUnique(es, es', Earlier);
    AscendingUnique(ds, ds', Before);
  }

  /** Every valid bundle fits well under the blob limit. */
  lemma RecordSize(b: Bundle, x: Bytes, public: Key -> Key)
    requires Valid(b, public) && IsRecord(b, x)
    ensures |x| == 179 + |b.token| + 40 * |b.epochs| + 48 * |b.devices| <= 15539
  {
    var es, ds :| Encodes(b, es, ds, x);
    Orders();
    AscendingSize(es, b.epochs, Earlier);
    AscendingSize(ds, b.devices, Before);
    EntriesLength(es, b.epochs, WriteEpoch, 8, DeviceTable(ds, b.devices, []));
    EntriesLength(ds, b.devices, WriteId, 16, []);
  }

  // --- Encoding --------------------------------------------------------------

  class Buffer {
    var bytes: Bytes

    constructor ()
      ensures bytes == []
    {
      bytes := [];
    }

    /** Appends `part`; what is still to come is `tail`. */
    method Write(part: Bytes, ghost tail: Bytes)
      modifies this
      ensures bytes == old(bytes) + part && bytes + tail == old(bytes) + (part + tail)
    {
      bytes := bytes + part;
    }
  }

  method WriteEntries<K(!new)>(buffer: Buffer, keys: seq<K>, table: map<K, Key>, write: K -> Bytes, ghost tail: Bytes)
    requires forall k | k in keys :: k in table
    modifies buffer
    ensures buffer.bytes + tail == old(buffer.bytes) + Entries(keys, table, write, tail)
  {
    for i := 0 to |keys|
      invariant buffer.bytes + Entries(keys[i..], table, write, tail)
                  == old(buffer.bytes) + Entries(keys, table, write, tail)
    {
      ghost var rest := Entries(keys[i + 1..], table, write, tail);
      assert keys[i..][1..] == keys[i + 1..];
      buffer.Write(write(keys[i]), table[keys[i]] + rest);
      buffer.Write(table[keys[i]], rest);
    }
  }

  method WriteFixed(buffer: Buffer, b: Bundle, ghost tail: Bytes)
    requires buffer.bytes == []
    modifies buffer
    ensures buffer.bytes + tail == Fixed(b, tail)
  {
    ghost var secrets := Secrets(b, tail);
    ghost var length := BigEndian(|b.token|, 2);
    buffer.Write(MAGIC, [b.version] + (b.account + (b.device + (length + (b.token + secrets)))));
    buffer.Write([b.version], b.account + (b.device + (length + (b.token + secrets))));
    buffer.Write(b.account, b.device + (length + (b.token + secrets)));
    buffer.Write(b.device, length + (b.token + secrets));
    buffer.Write(BigEndian(|b.token|, 2), b.token + secrets);
    buffer.Write(b.token, secrets);
    assert buffer.bytes + secrets == Fixed(b, tail);
    WriteSecrets(buffer, b, tail);
  }

  method WriteSecrets(buffer: Buffer, b: Bundle, ghost tail: Bytes)
    modifies buffer
    ensures buffer.bytes + tail == old(buffer.bytes) + Secrets(b, tail)
  {
    ghost var epoch := BigEndian(b.current, EPOCH_BYTES);
    buffer.Write(b.signing, b.x25519 + (b.local + (b.objects + (epoch + tail))));
    buffer.Write(b.x25519, b.local + (b.objects + (epoch + tail)));
    buffer.Write(b.local, b.objects + (epoch + tail));
    buffer.Write(b.objects, epoch + tail);
    buffer.Write(BigEndian(b.current, EPOCH_BYTES), tail);
  }

  method EncodeBundle(b: Bundle, public: Key -> Key) returns (r: Result<Bytes>)
    ensures r.Ok? <==> Valid(b, public)
    ensures r.Ok? ==> IsRecord(b, r.value)
  {
    var ok := Validate(b, public);
    if !ok {
      return Err;
    }
    Orders();
    var es := SortedKeys(b.epochs, Earlier);
    var ds := SortedKeys(b.devices, Before);
    ghost var devices := DeviceTable(ds, b.devices, []);
    ghost var epochs := EpochTable(es, b.epochs, devices);
    var buffer := new Buffer();
    WriteFixed(buffer, b, epochs);
    buffer.Write(BigEndian(|es|, 2), Entries(es, b.epochs, WriteEpoch, devices));
    WriteEntries(buffer, es, b.epochs, WriteEpoch, devices);
    buffer.Write(BigEndian(|ds|, 2), Entries(ds, b.devices, WriteId, []));
    WriteEntries(buffer, ds, b.devices, WriteId, []);
    var encoded := buffer.bytes;
    assert encoded + [] == encoded;
    assert Encodes(b, es, ds, encoded);
    RecordSize(b, encoded, public);
    r := if |encoded| > MAX_BLOB then Err else Ok(encoded);
  }

  // --- Decoding --------------------------------------------------------------
  //
  // Each reading method is both sound and complete: what it returns lays out as
  // the bytes it consumed, and if the bytes ahead are the layout of some `w`
  // followed by `tail`, it returns `w` and leaves `tail`.

  ghost predicate Readable(w: Bundle) {
    w.version == VERSION && 16 <= |w.token| <= MAX_TOKEN
  }

  ghost function Bare(w: Bundle): (r: Bundle) {
    w.(epochs := map[], devices := map[])
  }

  method ReadFixed(reader: Reader, ghost w: Bundle, ghost tail: Bytes) returns (r: Result<Bundle>)
    requires reader.Valid()
    modifies reader
    ensures reader.Valid()
    ensures r.Ok? ==> r.value == Bare(r.value) && old(reader.Rest()) == Fixed(r.value, reader.Rest())
    ensures Readable(w) && old(reader.Rest()) == Fixed(w, tail) ==> r == Ok(Bare(w)) && reader.Rest() == tail
  {
    ghost var secrets := Secrets(w, tail);
    Bounds();
    var head := ReadHead(reader, w, BigEndian(|w.token|, 2) + (w.token + secrets));
    if head.Err? {
      return Err;
    }
    var tokenLength := reader.Number(2, |w.token|, w.token + secrets);
    if tokenLength.Err? || tokenLength.value < 16 || tokenLength.value > MAX_TOKEN {
      return Err;
    }
    var token := reader.Take(tokenLength.value, w.token, secrets);
    if token.Err? {
      return Err;
    }
    r := ReadSecrets(reader, head.value.0, head.value.1, token.value, w, tail);
  }

  /** Magic, version, account and device. */
  method ReadHead(reader: Reader, ghost w: Bundle, ghost tail: Bytes) returns (r: Result<(Id, Id)>)
    requires reader.Valid()
    modifies reader
    ensures reader.Valid()
    ensures r.Ok? ==> old(reader.Rest()) == MAGIC + ([VERSION] + (r.value.0 + (r.value.1 + reader.Rest())))
    ensures w.version == VERSION && old(reader.Rest()) == MAGIC + ([w.version] + (w.account + (w.device + tail))) ==>
              r == Ok((w.account, w.device)) && reader.Rest() == tail
  {
    var magic := reader.Take(4, MAGIC, [w.version] + (w.account + (w.device + tail)));
    if magic.Err? || magic.value != MAGIC {
      return Err;
    }
    var version := reader.Take(1, [w.version], w.account + (w.device + tail));
    if version.Err? || version.value[0] != VERSION {
      return Err;
    }
    var account := reader.Take(16, w.account, w.device + tail);
    if account.Err? {
      return Err;
    }
    var device := reader.Take(16, w.device, tail);
    if device.Err? {
      return Err;
    }
    assert version.value == [VERSION];
    return Ok((account.value, device.value));
  }

  method ReadSecrets(reader: Reader, account: Id, device: Id, token: Bytes, ghost w: Bundle, ghost tail: Bytes)
    returns (r: Result<Bundle>)
    requires reader.Valid()
    modifies reader
    ensures reader.Valid()
    ensures r.Ok? ==>
              && r.value == Bare(r.value) && r.value.version == VERSION
              && r.value.account == account && r.value.device == device && r.value.token == token
              && old(reader.Rest()) == Secrets(r.value, reader.Rest())
    ensures old(reader.Rest()) == Secrets(w, tail) ==>
              && r == Ok(Bare(w).(version := VERSION, account := account, device := device, token := token))
              && reader.Rest() == tail
  {
    ghost var epoch := BigEndian(w.current, EPOCH_BYTES);
    Bounds();
    var signing := reader.Take(32, w.signing, w.x25519 + (w.local + (w.objects + (epoch + tail))));
    if signing.Err? {
      return Err;
    }
    var x25519 := reader.Take(32, w.x25519, w.local + (w.objects + (epoch + tail)));
    if x25519.Err? {
      return Err;
    }
    var local := reader.Take(32, w.local, w.objects + (epoch + tail));
    if local.Err? {
      return Err;
    }
    var objects := reader.Take(32, w.objects, epoch + tail);
    if objects.Err? {
      return Err;
    }
    var current := reader.Number(EPOCH_BYTES, w.current, tail);
    if current.Err? {
      return Err;
    }
    return Ok(Bundle(VERSION, account, device, token, signing.value, x25519.value, local.value, objects.value,
                     current.value, map[], map[]));
  }

  /** The entries of a table that have been read, and what is left of its bytes. */
  ghost predicate EpochsRead(es: seq<u64>, table: map<u64, Key>, body: Bytes, rest: Bytes) {
    Lists(es, table, Earlier) && body == Entries(es, table, WriteEpoch, rest)
  }

  lemma EpochRead(es: seq<u64>, table: map<u64, Key>, body: Bytes, e: u64, v: Key, rest: Bytes)
    requires EpochsRead(es, table, body, WriteEpoch(e) + (v + rest)) && (es != [] ==> es[|es| - 1] < e)
    ensures EpochsRead(es + [e], table[e := v], body, rest)
  {
    Orders();
    EntryRead(es, table, Earlier, WriteEpoch, e, v, rest);
  }

  ghost predicate DevicesRead(ds: seq<Id>, table: map<Id, Key>, body: Bytes, rest: Bytes) {
    Lists(ds, table, Before) && body == Entries(ds, table, WriteId, rest)
  }

  lemma DeviceRead(ds: seq<Id>, table: map<Id, Key>, body: Bytes, d: Id, v: Key, rest: Bytes)
    requires DevicesRead(ds, table, body, WriteId(d) + (v + rest)) && (ds != [] ==> Before(ds[|ds| - 1], d))
    ensures DevicesRead(ds + [d], table[d := v], body, rest)
  {
    Orders();
    EntryRead(ds, table, Before, WriteId, d, v, rest);
  }

  ghost predicate EpochsAhead(es: seq<u64>, table: map<u64, Key>, tail: Bytes, ahead: Bytes) {
    && Lists(es, table, Earlier) && 1 <= |es| <= MAX_EPOCHS && 0 !in es
    && ahead == EpochTable(es, table, tail)
  }

  /** The entry a laid-out epoch table has next. */
  lemma EpochAhead(some: bool, wes: seq<u64>, w: map<u64, Key>, tail: Bytes, i: nat, es: seq<u64>, table: map<u64, Key>,
                   ahead: Bytes) returns (e: u64, k: Key, rest: Bytes)
    requires some ==> Lists(wes, w, Earlier) && 0 !in wes && i < |wes|
    requires some ==> Following(wes, w, WriteEpoch, tail, i, es, table, ahead)
    ensures some ==> ahead == WriteEpoch(e) + (k + rest) && e > (if es == [] then 0 else es[|es| - 1])
    ensures some ==> Following(wes, w, WriteEpoch, tail, i + 1, es + [e], table[e := k], rest)
  {
    e, k, rest := 0, seq(32, _ => 0), [];
    if some {
      e, k, rest := wes[i], w[wes[i]], Entries(wes[i + 1..], w, WriteEpoch, tail);
      FollowOne(wes, w, WriteEpoch, tail, i, es, table, ahead);
      assert wes[i] in wes;
      assert i > 0 ==> Earlier(wes[i - 1], wes[i]);
    }
  }

  /** One entry of the epoch table. */
  method ReadEpoch(reader: Reader, previous: u64, ghost e: u64, ghost k: Key, ghost rest: Bytes)
    returns (r: Result<(u64, Key)>)
    requires reader.Valid()
    modifies reader
    ensures reader.Valid()
    ensures r.Ok? ==> previous < r.value.0 && old(reader.Rest()) == WriteEpoch(r.value.0) + (r.value.1 + reader.Rest())
    ensures previous < e && old(reader.Rest()) == WriteEpoch(e) + (k + rest) ==>
              r == Ok((e, k)) && reader.Rest() == rest
  {
    Bounds();
    var number := reader.Number(EPOCH_BYTES, e, k + rest);
    if number.Err? || number.value <= previous {
      return Err;
    }
    var key := reader.Take(32, k, rest);
    if key.Err? {
      return Err;
    }
    return Ok((number.value, key.value));
  }

  method ReadEpochs(reader: Reader, ghost wes: seq<u64>, ghost w: map<u64, Key>, ghost tail: Bytes)
    returns (r: Result<map<u64, Key>>, ghost es: seq<u64>)
    requires reader.Valid() && Lists(wes, w, Earlier)
    modifies reader
    ensures reader.Valid()
    ensures r.Ok? ==> Lists(es, r.value, Earlier) && old(reader.Rest()) == EpochTable(es, r.value, reader.Rest())
    ensures EpochsAhead(wes, w, tail, old(reader.Rest())) ==> r == Ok(w) && reader.Rest() == tail
  {
    Bounds();
    ghost var some := EpochsAhead(wes, w, tail, reader.Rest());
    es := [];
    var count := reader.Number(2, |wes|, Entries(wes, w, WriteEpoch, tail));
    if count.Err? || count.value < 1 || count.value > MAX_EPOCHS {
      return Err, es;
    }
    ghost var body := reader.Rest();
    var table: map<u64, Key> := map[];
    var previous: u64 := 0;
    assert wes[0..] == wes;
    for index := 0 to count.value
      invariant reader.Valid() && |es| == index
      invariant EpochsRead(es, table, body, reader.Rest()) && previous == if es == [] then 0 else es[|es| - 1]
      invariant some ==> count.value == |wes| && Following(wes, w, WriteEpoch, tail, index, es, table, reader.Rest())
    {
      ghost var e, k, rest := EpochAhead(some, wes, w, tail, index, es, table, reader.Rest());
      var entry := ReadEpoch(reader, previous, e, k, rest);
      if entry.Err? {
        return Err, es;
      }
      EpochRead(es, table, body, entry.value.0, entry.value.1, reader.Rest());
      previous, table := entry.value.0, table[entry.value.0 := entry.value.1];
      es := es + [entry.value.0];
    }
    if some {
      FollowEnd(wes, w, Earlier, WriteEpoch, tail, es, table, reader.Rest());
    }
    return Ok(table), es;
  }

  ghost predicate DevicesAhead(ds: seq<Id>, table: map<Id, Key>, tail: Bytes, ahead: Bytes) {
    && Lists(ds, table, Before) && 1 <= |ds| <= MAX_DEVICES
    && ahead == DeviceTable(ds, table, tail)
  }

  /** The entry a laid-out device table has next. */
  lemma DeviceAhead(some: bool, wds: seq<Id>, w: map<Id, Key>, tail: Bytes, i: nat, ds: seq<Id>, table: map<Id, Key>,
                    ahead: Bytes) returns (d: Id, k: Key, rest: Bytes)
    requires some ==> Lists(wds, w, Before) && i < |wds| && Following(wds, w, WriteId, tail, i, ds, table, ahead)
    ensures some ==> ahead == WriteId(d) + (k + rest) && (ds != [] ==> Before(ds[|ds| - 1], d))
    ensures some ==> Following(wds, w, WriteId, tail, i + 1, ds + [d], table[d := k], rest)
  {
    d, k, rest := seq(16, _ => 0), seq(32, _ => 0), [];
    if some {
      d, k, rest := wds[i], w[wds[i]], Entries(wds[i + 1..], w, WriteId, tail);
      FollowOne(wds, w, WriteId, tail, i, ds, table, ahead);
      assert i > 0 ==> Before(wds[i - 1], wds[i]);
    }
  }

  /** One entry of the device table. */
  method ReadDevice(reader: Reader, first: bool, previous: Id, ghost d: Id, ghost k: Key, ghost rest: Bytes)
    returns (r: Result<(Id, Key)>)
    requires reader.Valid()
    modifies reader
    ensures reader.Valid()
    ensures r.Ok? ==>
              (first || Before(previous, r.value.0)) &&
              old(reader.Rest()) == WriteId(r.value.0) + (r.value.1 + reader.Rest())
    ensures (first || Before(previous, d)) && old(reader.Rest()) == WriteId(d) + (k + rest) ==>
              r == Ok((d, k)) && reader.Rest() == rest
  {
    var taken := reader.Take(16, d, k + rest);
    if taken.Err? || (!first && !Before(previous, taken.value)) {
      return Err;
    }
    var key := reader.Take(32, k, rest);
    if key.Err? {
      return Err;
    }
    return Ok((taken.value, key.value));
  }

  /** The first `n` entries of the device table are read; if a laid-out table was ahead, they
      are its first `n`. */
  ghost predicate DevicesSoFar(some: bool, wds: seq<Id>, w: map<Id, Key>, tail: Bytes, n: nat, ds: seq<Id>,
                               table: map<Id, Key>, previous: Id, body: Bytes, rest: Bytes)
  {
    && |ds| == n && DevicesRead(ds, table, body, rest) && (ds != [] ==> previous == ds[|ds| - 1])
    && (some ==> Lists(wds, w, Before) && Following(wds, w, WriteId, tail, n, ds, table, rest))
  }

  /** Reads the next entry into the table. */
  method NextDevice(reader: Reader, n: nat, table: map<Id, Key>, previous: Id, ghost ds: seq<Id>, ghost some: bool,
                    ghost wds: seq<Id>, ghost w: map<Id, Key>, ghost tail: Bytes, ghost body: Bytes)
    returns (r: Result<(Id, Key)>)
    requires reader.Valid() && (some ==> n < |wds|)
    requires DevicesSoFar(some, wds, w, tail, n, ds, table, previous, body, reader.Rest())
    modifies reader
    ensures reader.Valid() && (some ==> r.Ok?)
    ensures r.Ok? ==> var (d, v) := r.value;
                      DevicesSoFar(some, wds, w, tail, n + 1, ds + [d], table[d := v], d, body, reader.Rest())
  {
    ghost var d, k, rest := DeviceAhead(some, wds, w, tail, n, ds, table, reader.Rest());
    r := ReadDevice(reader, n == 0, previous, d, k, rest);
    if r.Ok? {
      DeviceRead(ds, table, body, r.value.0, r.value.1, reader.Rest());
    }
  }

  method ReadDevices(reader: Reader, ghost wds: seq<Id>, ghost w: map<Id, Key>, ghost tail: Bytes)
    returns (r: Result<map<Id, Key>>, ghost ds: seq<Id>)
    requires reader.Valid() && Lists(wds, w, Before)
    modifies reader
    ensures reader.Valid()
    ensures r.Ok? ==> Lists(ds, r.value, Before) && old(reader.Rest()) == DeviceTable(ds, r.value, reader.Rest())
    ensures DevicesAhead(wds, w, tail, old(reader.Rest())) ==> r == Ok(w) && reader.Rest() == tail
  {
    Bounds();
    ghost var some := DevicesAhead(wds, w, tail, reader.Rest());
    ds := [];
    var count := reader.Number(2, |wds|, Entries(wds, w, WriteId, tail));
    if count.Err? || count.value < 1 || count.value > MAX_DEVICES {
      return Err, ds;
    }
    ghost var body := reader.Rest();
    var table: map<Id, Key> := map[];
    var previous: Id := seq(16, _ => 0);
    assert wds[0..] == wds;
    for index := 0 to count.value
      invariant reader.Valid() && (some ==> count.value == |wds|)
      invariant DevicesSoFar(some, wds, w, tail, index, ds, table, previous, body, reader.Rest())
    {
      var entry := NextDevice(reader, index, table, previous, ds, some, wds, w, tail, body);
      if entry.Err? {
        return Err, ds;
      }
      previous, table := entry.value.0, table[entry.value.0 := entry.value.1];
      ds := ds + [entry.value.0];
    }
    if some {
      FollowEnd(wds, w, Before, WriteId, tail, ds, table, reader.Rest());
    }
    return Ok(table), ds;
  }

  /** Reads a record; `w` with its listings is a bundle the bytes may belong to. */
  method ReadRecord(encoded: Bytes, public: Key -> Key, ghost w: Bundle, ghost wes: seq<u64>, ghost wds: seq<Id>)
    returns (r: Result<Bundle>)
    requires Lists(wes, w.epochs, Earlier) && Lists(wds, w.devices, Before)
    ensures r.Ok? ==> Valid(r.value, public) && IsRecord(r.value, encoded)
    ensures Expected(encoded, public, w, wes, wds) ==> r == Ok(w)
  {
    if |encoded| < 5 || |encoded| > MAX_BLOB {
      return Err;
    }
    ghost var some := Expected(encoded, public, w, wes, wds);
    ghost var devices := DeviceTable(wds, w.devices, []);
    ghost var epochs := EpochTable(wes, w.epochs, devices);
    var reader := new Reader(encoded);
    var fixed := ReadFixed(reader, w, epochs);
    if fixed.Err? {
      return Err;
    }
    assert some ==> EpochsAhead(wes, w.epochs, devices, reader.Rest());
    ghost var ahead := reader.Rest();
    var epochKeys, es := ReadEpochs(reader, wes, w.epochs, devices);
    if epochKeys.Err? {
      return Err;
    }
    assert some ==> DevicesAhead(wds, w.devices, [], reader.Rest());
    var deviceKeys, ds := ReadDevices(reader, wds, w.devices, []);
    if deviceKeys.Err? || reader.offset != |encoded| {
      return Err;
    }
    assert reader.Rest() == [];
    var bundle := fixed.value.(epochs := epochKeys.value, devices := deviceKeys.value);
    assert some ==> bundle == w;
    assert encoded == Fixed(bundle, ahead);
    assert Encodes(bundle, es, ds, encoded);
    var ok := Validate(bundle, public);
    r := if ok then Ok(bundle) else Err;
  }

  ghost predicate Expected(encoded: Bytes, public: Key -> Key, w: Bundle, es: seq<u64>, ds: seq<Id>) {
    && Valid(w, public) && Encodes(w, es, ds, encoded) && 5 <= |encoded| <= MAX_BLOB
    && 1 <= |es| <= MAX_EPOCHS && 0 !in es && 1 <= |ds| <= MAX_DEVICES
  }

  /** Accepts exactly the records of valid bundles, and returns the bundle. */
  method DecodeBundle(encoded: Bytes, public: Key -> Key) returns (r: Result<Bundle>)
    ensures r.Ok? ==> Valid(r.value, public) && IsRecord(r.value, encoded)
    ensures r.Err? ==> forall b | Valid(b, public) :: !IsRecord(b, encoded)
  {
    ghost var some := exists b :: Valid(b, public) && IsRecord(b, encoded);
    ghost var w, wes, wds := Witness(some, encoded, public);
    r := ReadRecord(encoded, public, w, wes, wds);
  }

  /** A valid bundle with the given record, when there is one. */
  lemma Witness(some: bool, encoded: Bytes, public: Key -> Key) returns (w: Bundle, es: seq<u64>, ds: seq<Id>)
    requires some ==> exists b :: Valid(b, public) && IsRecord(b, encoded)
    ensures Lists(es, w.epochs, Earlier) && Lists(ds, w.devices, Before)
    ensures some ==> Expected(encoded, public, w, es, ds)
  {
    if some {
      w :| Valid(w, public) && IsRecord(w, encoded);
      es, ds :| Encodes(w, es, ds, encoded);
      RecordSize(w, encoded, public);
      Orders();
      AscendingSize(es, w.epochs, Earlier);
      AscendingSize(ds, w.devices, Before);
    } else {
      var id: Id, key: Key := seq(16, _ => 0), seq(32, _ => 0);
      w, es, ds := Bundle(0, id, id, [], key, key, key, key, 0, map[], map[]), [], [];
    }
  }

  // --- Round trips -----------------------------------------------------------

  lemma SecretsDetermine(a: Bundle, t: Bytes, b: Bundle, u: Bytes)
    requires Secrets(a, t) == Secrets(b, u)
    ensures a.signing == b.signing && a.x25519 == b.x25519 && a.local == b.local && a.objects == b.objects
    ensures a.current == b.current && t == u
  {
    var m, n := BigEndian(a.current, EPOCH_BYTES) + t, BigEndian(b.current, EPOCH_BYTES) + u;
    SameSplit(a.signing, a.x25519 + (a.local + (a.objects + m)), b.signing, b.x25519 + (b.local + (b.objects + n)));
    SameSplit(a.x25519, a.local + (a.objects + m), b.x25519, b.local + (b.objects + n));
    SameSplit(a.local, a.objects + m, b.local, b.objects + n);
    SameSplit(a.objects, m, b.objects, n);
    SameSplit(BigEndian(a.current, EPOCH_BYTES), t, BigEndian(b.current, EPOCH_BYTES), u);
    SameNumber(a.current, b.current, EPOCH_BYTES);
  }

  lemma SameNumber(m: nat, n: nat, k: nat)
    requires m < Bound(k) && n < Bound(k) && BigEndian(m, k) == BigEndian(n, k)
    ensures m == n
  {
    ValueOfBigEndian(m, k);
    ValueOfBigEndian(n, k);
  }

  lemma FixedDetermines(a: Bundle, t: Bytes, b: Bundle, u: Bytes)
    requires Fixed(a, t) == Fixed(b, u) && |a.token| <= MAX_TOKEN && |b.token| <= MAX_TOKEN
    ensures Bare(a) == Bare(b) && t == u
  {
    Bounds();
    var c, d := BigEndian(|a.token|, 2), BigEndian(|b.token|, 2);
    var m, n := Secrets(a, t), Secrets(b, u);
    SameSplit(MAGIC, [a.version] + (a.account + (a.device + (c + (a.token + m)))),
              MAGIC, [b.version] + (b.account + (b.device + (d + (b.token + n)))));
    SameSplit([a.version], a.account + (a.device + (c + (a.token + m))), [b.version],
              b.account + (b.device + (d + (b.token + n))));
    SameSplit(a.account, a.device + (c + (a.token + m)), b.account, b.device + (d + (b.token + n)));
    SameSplit(a.device, c + (a.token + m), b.device, d + (b.token + n));
    SameSplit(c, a.token + m, d, b.token + n);
    SameNumber(|a.token|, |b.token|, 2);
    SameSplit(a.token, m, b.token, n);
    SecretsDetermine(a, t, b, u);
  }

  /** A record belongs to one bundle. */
  lemma RecordDetermines(a: Bundle, b: Bundle, x: Bytes, public: Key -> Key)
    requires Valid(a, public) && Valid(b, public) && IsRecord(a, x) && IsRecord(b, x)
    ensures a == b
  {
    var es, ds :| Encodes(a, es, ds, x);
    var fs, gs :| Encodes(b, fs, gs, x);
    Orders();
    AscendingSize(ds, a.devices, Before);
    AscendingSize(gs, b.devices, Before);
    TablesDetermine(a, es, ds, b, fs, gs, x, public);
  }

  lemma EpochTableDetermines(es: seq<u64>, m: map<u64, Key>, t: Bytes, fs: seq<u64>, n: map<u64, Key>, u: Bytes)
    requires Lists(es, m, Earlier) && Lists(fs, n, Earlier) && |m| <= MAX_EPOCHS && |n| <= MAX_EPOCHS
    requires EpochTable(es, m, t) == EpochTable(fs, n, u)
    ensures m == n && t == u
  {
    Sizes(es, m);
    Sizes(fs, n);
    SameSplit(BigEndian(|es|, 2), Entries(es, m, WriteEpoch, t), BigEndian(|fs|, 2), Entries(fs, n, WriteEpoch, u));
    SameCount(|es|, |fs|);
    forall e: u64, f: u64 | WriteEpoch(e) == WriteEpoch(f) ensures e == f {
      SameEpoch(e, f);
    }
    EntriesDetermine(es, m, fs, n, WriteEpoch, t, u);
  }

  lemma Sizes(es: seq<u64>, m: map<u64, Key>)
    requires Lists(es, m, Earlier)
    ensures |es| == |m|
  {
    Orders();
    AscendingSize(es, m, Earlier);
  }

  lemma SameCount(m: nat, n: nat)
    requires m < 0x1_0000 && n < 0x1_0000 && BigEndian(m, 2) == BigEndian(n, 2)
    ensures m == n
  {
    Bounds();
    SameNumber(m, n, 2);
  }

  lemma SameEpoch(e: u64, f: u64)
    requires WriteEpoch(e) == WriteEpoch(f)
    ensures e == f
  {
    Bounds();
    SameNumber(e, f, EPOCH_BYTES);
  }

  lemma DeviceTableDetermines(ds: seq<Id>, m: map<Id, Key>, t: Bytes, gs: seq<Id>, n: map<Id, Key>, u: Bytes)
    requires Lists(ds, m, Before) && Lists(gs, n, Before) && |ds| <= MAX_DEVICES && |gs| <= MAX_DEVICES
    requires DeviceTable(ds, m, t) == DeviceTable(gs, n, u)
    ensures m == n && t == u
  {
    SameSplit(BigEndian(|ds|, 2), Entries(ds, m, WriteId, t), BigEndian(|gs|, 2), Entries(gs, n, WriteId, u));
    SameCount(|ds|, |gs|);
    EntriesDetermine(ds, m, gs, n, WriteId, t, u);
  }

  lemma TablesDetermine(a: Bundle, es: seq<u64>, ds: seq<Id>, b: Bundle, fs: seq<u64>, gs: seq<Id>, x: Bytes,
                        public: Key -> Key)
    requires Valid(a, public) && Valid(b, public) && Encodes(a, es, ds, x) && Encodes(b, fs, gs, x)
    requires |ds| <= MAX_DEVICES && |gs| <= MAX_DEVICES
    ensures a == b
  {
    var d, g := DeviceTable(ds, a.devices, []), DeviceTable(gs, b.devices, []);
    FixedDetermines(a, EpochTable(es, a.epochs, d), b, EpochTable(fs, b.epochs, g));
    EpochTableDetermines(es, a.epochs, d, fs, b.epochs, g);
    DeviceTableDetermines(ds, a.devices, [], gs, b.devices, []);
    assert a == Bare(a).(epochs := a.epochs, devices := a.devices);
    assert b == Bare(b).(epochs := b.epochs, devices := b.devices);
  }

  /** Decoding the encoding of a valid bundle gives the bundle back. */
  method EncodeThenDecode(b: Bundle, public: Key -> Key) returns (r: Result<Bundle>)
    requires Valid(b, public)
    ensures r == Ok(b)
  {
    var encoded := EncodeBundle(b, public);
    r := DecodeBundle(encoded.value, public);
    RecordDetermines(b, r.value, encoded.value, public);
  }

  /** Encoding what a byte string decodes to gives the byte string back. */
  method DecodeThenEncode(encoded: Bytes, public: Key -> Key) returns (r: Result<Bytes>)
    ensures r.Ok? <==> exists b :: Valid(b, public) && IsRecord(b, encoded)
    ensures r.Ok? ==> r.value == encoded
  {
    var decoded := DecodeBundle(encoded, public);
    if decoded.Err? {
      return Err;
    }
    r := EncodeBundle(decoded.value, public);
    RecordUnique(decoded.value, r.value, encoded);
  }
}
