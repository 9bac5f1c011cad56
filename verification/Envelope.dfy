/** Envelope encryption: the byte format of a ciphertext, and the data keys that are used for
    a while, rotated, and cached. The cipher, the digest and the key manager are parameters. */
module Envelope {
  import opened Basics

  type Byte = x: int | 0 <= x < 256
  type Bytes = seq<Byte>

  // ------------------------------------------------------------ format

  const FORMAT_VERSION: Byte := 1

  datatype Parts = Parts(wrapped: Bytes, nonce: Bytes, ct: Bytes)

  datatype FormatError = Unrecognised | TruncatedKey | TruncatedNonce

  /** Big-endian. */
  function Uint16(hi: int, lo: int): int { hi * 256 + lo }

  /** A length as two bytes, truncated to 16 bits. */
  function WrappedLength(n: nat): (r: Bytes)
    ensures |r| == 2 && Uint16(r[0], r[1]) == n % 0x1_0000
    ensures n < 0x1_0000 ==> Uint16(r[0], r[1]) == n
  {
    var l := n % 0x1_0000;
    [l / 256, l % 256]
  }

  /** A length as one byte, truncated to 8 bits. */
  function NonceLength(n: nat): (r: Byte)
    ensures n < 256 ==> r == n
    ensures exists q: nat :: n == q * 256 + r
  {
    assert n == (n / 256) * 256 + n % 256;
    n % 256
  }

  function Encode(p: Parts): Bytes {
    [FORMAT_VERSION] + WrappedLength(|p.wrapped|) + p.wrapped + [NonceLength(|p.nonce|)] + p.nonce + p.ct
  }

  function Decode(blob: Bytes): Result<Parts, FormatError> {
    if |blob| < 3 || blob[0] != FORMAT_VERSION then Err(Unrecognised)
    else
      var wrappedLen := Uint16(blob[1], blob[2]);
      if |blob| < 3 + wrappedLen + 1 then Err(TruncatedKey)
      else
        var pos := 3 + wrappedLen + 1;
        var nonceLen: int := blob[pos - 1];
        if |blob| < pos + nonceLen then Err(TruncatedNonce)
        else Ok(Parts(blob[3..3 + wrappedLen], blob[pos..pos + nonceLen], blob[pos + nonceLen..]))
  }

  ghost predicate Fits(p: Parts) {
    |p.wrapped| < 0x1_0000 && |p.nonce| < 256
  }

  /** Every accepted blob is the encoding of what was read from it. */
  lemma EncodeDecode(blob: Bytes)
    ensures Decode(blob).Ok? ==> Encode(Decode(blob).value) == blob && Fits(Decode(blob).value)
  {
    if Decode(blob).Err? {
      return;
    }
    var p := Decode(blob).value;
    var n := |p.wrapped|;
    var pos := 4 + n + |p.nonce|;
    LengthFieldUnique(blob[1], blob[2]);
    hide WrappedLength, Uint16;
    assert blob[1..3] == WrappedLength(n);
    assert blob == [blob[0]] + blob[1..3] + blob[3..3 + n] + [blob[3 + n]] + blob[4 + n..pos] + blob[pos..];
  }

  lemma LengthFieldUnique(hi: Byte, lo: Byte)
    ensures 0 <= Uint16(hi, lo) < 0x1_0000 && WrappedLength(Uint16(hi, lo)) == [hi, lo]
  {
    hide WrappedLength;
    var r := WrappedLength(Uint16(hi, lo));
    assert r[0] == hi && r[1] == lo;
  }

  /** Decoding undoes encoding exactly when both lengths fit their fields. */
  lemma DecodeEncode(p: Parts)
    ensures Decode(Encode(p)) == Ok(p) <==> Fits(p)
  {
    if Fits(p) {
      Layout(p);
      hide Encode;
    } else if Decode(Encode(p)).Ok? {
      EncodeDecode(Encode(p));
      hide Encode, Decode;
    }
  }

  lemma Layout(p: Parts)
    requires Fits(p)
    ensures var blob, n := Encode(p), |p.wrapped|; var pos := 4 + n + |p.nonce|;
      && |blob| == pos + |p.ct| && blob[0] == FORMAT_VERSION && Uint16(blob[1], blob[2]) == n
      && blob[3..3 + n] == p.wrapped && blob[3 + n] == |p.nonce|
      && blob[4 + n..pos] == p.nonce && blob[pos..] == p.ct
  {
    hide WrappedLength, NonceLength, Uint16;
    var l, n := WrappedLength(|p.wrapped|), |p.wrapped|;
    var rest := [NonceLength(|p.nonce|)] + (p.nonce + p.ct);
    assert Encode(p) == ([FORMAT_VERSION] + l) + (p.wrapped + rest);
    assert Encode(p)[3..] == p.wrapped + rest;
    assert Encode(p)[3 + n..] == rest;
    assert Encode(p)[4 + n..] == p.nonce + p.ct;
  }

  /** A blob is accepted exactly when it is an encoding of parts that fit, and of one such only. */
  lemma AcceptedIffEncoded(blob: Bytes)
    ensures Decode(blob).Ok? <==> exists p :: Fits(p) && Encode(p) == blob
    ensures forall p, q :: Fits(p) && Fits(q) && Encode(p) == blob && Encode(q) == blob ==> p == q
  {
    hide Encode, Decode;
    if Decode(blob).Ok? {
      EncodeDecode(blob);
    }
    forall p | Fits(p) && Encode(p) == blob ensures Decode(blob) == Ok(p) {
      DecodeEncode(p);
    }
  }

  // ------------------------------------------------------------ keys

  /** An AEAD is determined by its key. */
  datatype Aead = Aead(key: Bytes)

  const NONCE_SIZE: nat := 12

  function AeadFromKey(dek: Bytes): Option<Aead> {
    if |dek| == 16 || |dek| == 24 || |dek| == 32 then Some(Aead(dek)) else None
  }

  /** What lies outside: unwrapping by the key manager, sealing, opening and the digest. */
  datatype Crypto = Crypto(
    unwrap: Bytes -> Option<Bytes>,
    seal: (Aead, Bytes, Bytes, Bytes) -> Bytes,
    open: (Aead, Bytes, Bytes, Bytes) -> Option<Bytes>,
    digest: Bytes -> string)

  ghost predicate Sound(c: Crypto) {
    && (forall a, n, pt, aad :: c.open(a, n, c.seal(a, n, pt, aad), aad) == Some(pt))
    && (forall w, v :: c.digest(w) == c.digest(v) ==> w == v)
  }

  /** The AEAD of a wrapped key, with no cache in between. */
  function Unwrapped(c: Crypto, wrapped: Bytes): Option<Aead> {
    match c.unwrap(wrapped)
    case None => None
    case Some(dek) => AeadFromKey(dek)
  }

  datatype Config = Config(dekTTL: int, cacheTTL: int, maxUses: int)

  const DEFAULT_TTL: int := 3600 * 1_000_000_000
  const DEFAULT_MAX_USES: int := 0x10_0000

  /** NewEnvelope fills in what is not set. */
  function Effective(cfg: Config): (r: Config)
    ensures r.dekTTL > 0 && r.cacheTTL > 0 && r.maxUses > 0
    ensures r.dekTTL == (if cfg.dekTTL > 0 then cfg.dekTTL else 3_600_000_000_000)
    ensures r.cacheTTL == (if cfg.cacheTTL > 0 then cfg.cacheTTL else 3_600_000_000_000)
    ensures r.maxUses == (if cfg.maxUses > 0 then cfg.maxUses else 1_048_576)
  {
    Config(if cfg.dekTTL <= 0 then DEFAULT_TTL else cfg.dekTTL,
           if cfg.cacheTTL <= 0 then DEFAULT_TTL else cfg.cacheTTL,
           if cfg.maxUses <= 0 then DEFAULT_MAX_USES else cfg.maxUses)
  }

  datatype Entry = Entry(aead: Aead, exp: int)

  datatype Current = Current(aead: Aead, wrapped: Bytes)

  datatype State = State(cur: Option<Current>, uses: nat, expiry: int, cache: map<string, Entry>)

  const NO_KEYS := State(None, 0, 0, map[])

  predicate Rotates(cfg: Config, s: State, now: int) {
    s.cur == None || s.uses >= cfg.maxUses || now > s.expiry
  }

  /** currentDEK; generated is the key manager's answer, should it be asked. */
  function CurrentDEK(c: Crypto, cfg: Config, s: State, now: int, generated: Option<(Bytes, Bytes)>): (State, Option<Current>) {
    if !Rotates(cfg, s, now) then (s.(uses := s.uses + 1), s.cur)
    else
      match generated
      case None => (s, None)
      case Some((dek, wrapped)) =>
        match AeadFromKey(dek)
        case None => (s, None)
        case Some(aead) =>
          var cur := Some(Current(aead, wrapped));
          (State(cur, 1, now + cfg.dekTTL, s.cache[c.digest(wrapped) := Entry(aead, now + cfg.cacheTTL)]), cur)
  }

  /** aeadForWrapped; up says whether the key manager answers, should it be asked. */
  function AeadForWrapped(c: Crypto, cfg: Config, s: State, wrapped: Bytes, now: int, up: bool): (State, Option<Aead>) {
    var key := c.digest(wrapped);
    if key in s.cache && now <= s.cache[key].exp then (s, Some(s.cache[key].aead))
    else
      var swept := s.(cache := s.cache - {key});
      match if up then Unwrapped(c, wrapped) else None
      case None => (swept, None)
      case Some(aead) => (swept.(cache := swept.cache[key := Entry(aead, now + cfg.cacheTTL)]), Some(aead))
  }

  function Encrypt(c: Crypto, cfg: Config, s: State, pt: Bytes, aad: Bytes, now: int,
                   generated: Option<(Bytes, Bytes)>, nonce: Option<Bytes>): (State, Option<Bytes>)
  {
    var (s', cur) := CurrentDEK(c, cfg, s, now, generated);
    match cur
    case None => (s', None)
    case Some(k) =>
      match nonce
      case None => (s', None)
      case Some(n) => (s', Some(Encode(Parts(k.wrapped, n, c.seal(k.aead, n, pt, aad)))))
  }

  datatype DecryptError = BadFormat(e: FormatError) | NoKey | NotAuthentic

  function Opened(c: Crypto, a: Aead, p: Parts, aad: Bytes): Result<Bytes, DecryptError> {
    match c.open(a, p.nonce, p.ct, aad)
    case None => Err(NotAuthentic)
    case Some(pt) => Ok(pt)
  }

  function Decrypt(c: Crypto, cfg: Config, s: State, blob: Bytes, aad: Bytes, now: int, up: bool): (State, Result<Bytes, DecryptError>) {
    match Decode(blob)
    case Err(e) => (s, Err(BadFormat(e)))
    case Ok(p) =>
      var (s', aead) := AeadForWrapped(c, cfg, s, p.wrapped, now, up);
      match aead
      case None => (s', Err(NoKey))
      case Some(a) => (s', Opened(c, a, p, aad))
  }

  /** Decryption as it would be with no cache at all. */
  function DecryptDirectly(c: Crypto, blob: Bytes, aad: Bytes): Result<Bytes, DecryptError> {
    match Decode(blob)
    case Err(e) => Err(BadFormat(e))
    case Ok(p) =>
      match Unwrapped(c, p.wrapped)
      case None => Err(NoKey)
      case Some(a) => Opened(c, a, p, aad)
  }

  // ------------------------------------------------------------ runs

  datatype Op =
    | Enc(pt: Bytes, aad: Bytes, now: int, generated: Option<(Bytes, Bytes)>, nonce: Option<Bytes>)
    | Dec(blob: Bytes, aad: Bytes, now: int, up: bool)

  /** The key manager hands out keys it can unwrap, short enough for the format; nonces have their size. */
  ghost predicate Honest(c: Crypto, op: Op) {
    op.Enc? ==>
      && (op.generated.Some? ==> c.unwrap(op.generated.value.1) == Some(op.generated.value.0) && |op.generated.value.1| < 0x1_0000)
      && (op.nonce.Some? ==> |op.nonce.value| == NONCE_SIZE)
  }

  ghost predicate AllHonest(c: Crypto, ops: seq<Op>) {
    forall i :: 0 <= i < |ops| ==> Honest(c, ops[i])
  }

  function Next(c: Crypto, cfg: Config, s: State, op: Op): State {
    match op
    case Enc(pt, aad, now, generated, nonce) => Encrypt(c, cfg, s, pt, aad, now, generated, nonce).0
    case Dec(blob, aad, now, up) => Decrypt(c, cfg, s, blob, aad, now, up).0
  }

  function After(c: Crypto, cfg: Config, ops: seq<Op>): State {
    if ops == [] then NO_KEYS else Next(c, cfg, After(c, cfg, ops[..|ops| - 1]), ops[|ops| - 1])
  }

  /** Every cached AEAD is the unwrapped key's, and so is the current one. */
  ghost predicate CacheAgrees(c: Crypto, s: State) {
    && (forall w :: c.digest(w) in s.cache ==> Unwrapped(c, w) == Some(s.cache[c.digest(w)].aead))
    && (s.cur.Some? ==> Unwrapped(c, s.cur.value.wrapped) == Some(s.cur.value.aead) && |s.cur.value.wrapped| < 0x1_0000)
  }

  lemma NextAgrees(c: Crypto, cfg: Config, s: State, op: Op)
    requires Sound(c) && CacheAgrees(c, s) && Honest(c, op)
    ensures CacheAgrees(c, Next(c, cfg, s, op))
  {
    hide Decode, Encode, Unwrapped;
    if op.Enc? {
      EncryptAgrees(c, cfg, s, op);
    }
  }

  lemma EncryptAgrees(c: Crypto, cfg: Config, s: State, op: Op)
    requires Sound(c) && CacheAgrees(c, s) && Honest(c, op) && op.Enc?
    ensures CacheAgrees(c, CurrentDEK(c, cfg, s, op.now, op.generated).0)
  {
  }

  lemma {:induction false} CacheAlwaysAgrees(c: Crypto, cfg: Config, ops: seq<Op>)
    requires Sound(c) && AllHonest(c, ops)
    ensures CacheAgrees(c, After(c, cfg, ops))
  {
    if ops != [] {
      CacheAlwaysAgrees(c, cfg, ops[..|ops| - 1]);
      NextAgrees(c, cfg, After(c, cfg, ops[..|ops| - 1]), ops[|ops| - 1]);
    }
  }

  /** The cache is invisible: after any operations, and at any time, decryption answers as if
      there were none, as long as the key manager answers; otherwise it may lack the key, but
      never answers differently. */
  lemma CacheIsInvisible(c: Crypto, cfg: Config, ops: seq<Op>, blob: Bytes, aad: Bytes, now: int, up: bool)
    requires Sound(c) && AllHonest(c, ops)
    ensures var answer := Decrypt(c, cfg, After(c, cfg, ops), blob, aad, now, up).1;
      answer == DecryptDirectly(c, blob, aad) || (!up && answer == Err(NoKey))
  {
    CacheAlwaysAgrees(c, cfg, ops);
    hide After, Decode, Unwrapped, Opened;
  }

  /** A blob that was decrypted while the key manager answered can be decrypted again while it
      does not, at least until that time: the cache holds its key. */
  lemma CachedThroughOutage(c: Crypto, cfg: Config, ops: seq<Op>, blob: Bytes, aad: Bytes, now: int, t: int)
    requires Sound(c) && AllHonest(c, ops) && cfg.cacheTTL >= 0 && t <= now
    ensures var before := After(c, cfg, ops); var after := After(c, cfg, ops + [Dec(blob, aad, now, true)]);
      Decrypt(c, cfg, after, blob, aad, t, false).1 == Decrypt(c, cfg, before, blob, aad, now, true).1
  {
    var before := After(c, cfg, ops);
    assert (ops + [Dec(blob, aad, now, true)])[..|ops|] == ops;
    var after := Decrypt(c, cfg, before, blob, aad, now, true).0;
    assert After(c, cfg, ops + [Dec(blob, aad, now, true)]) == after;
    hide After, Decode, Unwrapped, Opened;
  }

  /** The parts, the data key and the plaintext of a blob that is authentic. */
  ghost predicate Authentic(c: Crypto, blob: Bytes, aad: Bytes, p: Parts, dek: Bytes, pt: Bytes) {
    && Fits(p) && Encode(p) == blob && c.unwrap(p.wrapped) == Some(dek)
    && (|dek| == 16 || |dek| == 24 || |dek| == 32)
    && c.open(Aead(dek), p.nonce, p.ct, aad) == Some(pt)
  }

  /** After any operations, decryption answers a plaintext only if the blob is the encoding of
      parts whose key unwraps to a data key that authenticates the ciphertext to it; and it does
      answer it, as long as the key manager does. */
  lemma DecryptIsAuthentic(c: Crypto, cfg: Config, ops: seq<Op>, blob: Bytes, aad: Bytes, now: int, up: bool, pt: Bytes)
    requires Sound(c) && AllHonest(c, ops)
    ensures var answer := Decrypt(c, cfg, After(c, cfg, ops), blob, aad, now, up).1;
      && (answer == Ok(pt) ==> exists p, dek :: Authentic(c, blob, aad, p, dek, pt))
      && (up && (exists p, dek :: Authentic(c, blob, aad, p, dek, pt)) ==> answer == Ok(pt))
      && (answer.Err? && answer.error.BadFormat? <==> !exists p :: Fits(p) && Encode(p) == blob)
  {
    CacheIsInvisible(c, cfg, ops, blob, aad, now, up);
    AcceptedIffEncoded(blob);
    BadFormatIff(c, cfg, After(c, cfg, ops), blob, aad, now, up);
    hide After, Encode, Decode, Decrypt;
    DirectlyIff(c, blob, aad, pt);
  }

  lemma BadFormatIff(c: Crypto, cfg: Config, s: State, blob: Bytes, aad: Bytes, now: int, up: bool)
    ensures var answer := Decrypt(c, cfg, s, blob, aad, now, up).1; answer.Err? && answer.error.BadFormat? <==> Decode(blob).Err?
  {
    hide Decode, AeadForWrapped;
  }

  lemma DirectlyIff(c: Crypto, blob: Bytes, aad: Bytes, pt: Bytes)
    ensures DecryptDirectly(c, blob, aad) == Ok(pt) <==> exists p, dek :: Authentic(c, blob, aad, p, dek, pt)
  {
    EncodeDecode(blob);
    hide Encode, Decode;
    if DecryptDirectly(c, blob, aad) == Ok(pt) {
      var p := Decode(blob).value;
      assert Authentic(c, blob, aad, p, c.unwrap(p.wrapped).value, pt);
    }
    forall p, dek | Authentic(c, blob, aad, p, dek, pt) ensures DecryptDirectly(c, blob, aad) == Ok(pt) {
      DecodeEncode(p);
    }
  }

  /** Decryption inverts encryption through any number of operations, rotations and expiries. */
  lemma DecryptInvertsEncrypt(c: Crypto, cfg: Config, ops: seq<Op>, i: nat, now: int)
    requires Sound(c) && AllHonest(c, ops) && i < |ops| && ops[i].Enc?
    ensures var e := ops[i];
      var sealed := Encrypt(c, cfg, After(c, cfg, ops[..i]), e.pt, e.aad, e.now, e.generated, e.nonce).1;
      sealed.Some? ==> Decrypt(c, cfg, After(c, cfg, ops), sealed.value, e.aad, now, true).1 == Ok(e.pt)
  {
    var e := ops[i];
    var s := After(c, cfg, ops[..i]);
    CacheAlwaysAgrees(c, cfg, ops[..i]);
    EncryptAgrees(c, cfg, s, e);
    var (s', cur) := CurrentDEK(c, cfg, s, e.now, e.generated);
    if cur.Some? && e.nonce.Some? {
      var p := Parts(cur.value.wrapped, e.nonce.value, c.seal(cur.value.aead, e.nonce.value, e.pt, e.aad));
      assert s'.cur == cur;
      DecodeEncode(p);
      CacheIsInvisible(c, cfg, ops, Encode(p), e.aad, now, true);
      hide After, Decode, Encode, CurrentDEK, Decrypt;
    }
  }

  // ------------------------------------------------------------ how long a data key is used

  /** The number of data keys taken into use. */
  function Generation(c: Crypto, cfg: Config, ops: seq<Op>): nat {
    if ops == [] then 0
    else
      var front, op := ops[..|ops| - 1], ops[|ops| - 1];
      var s := After(c, cfg, front);
      Generation(c, cfg, front)
      + (if op.Enc? && Rotates(cfg, s, op.now) && CurrentDEK(c, cfg, s, op.now, op.generated).1.Some? then 1 else 0)
  }

  /** The number of messages sealed under the g-th data key. */
  function Seals(c: Crypto, cfg: Config, ops: seq<Op>, g: nat): nat {
    if ops == [] then 0
    else
      var front, op := ops[..|ops| - 1], ops[|ops| - 1];
      Seals(c, cfg, front, g)
      + (if op.Enc? && Generation(c, cfg, ops) == g
            && Encrypt(c, cfg, After(c, cfg, front), op.pt, op.aad, op.now, op.generated, op.nonce).1.Some?
         then 1 else 0)
  }

  /** No data key seals more than the allowed number of messages. */
  lemma {:induction false} SealsWithinLimit(c: Crypto, cfg: Config, ops: seq<Op>, g: nat)
    requires cfg.maxUses > 0
    ensures Seals(c, cfg, ops, g) <= cfg.maxUses
    ensures g > Generation(c, cfg, ops) ==> Seals(c, cfg, ops, g) == 0
    ensures g == Generation(c, cfg, ops) ==> Seals(c, cfg, ops, g) <= After(c, cfg, ops).uses
    ensures After(c, cfg, ops).uses <= cfg.maxUses
  {
    hide Encode, Decode;
    if ops != [] {
      SealsWithinLimit(c, cfg, ops[..|ops| - 1], g);
    }
  }

  /** The position of the operation that took the current data key into use, -1 before there is one. */
  function Starter(c: Crypto, cfg: Config, ops: seq<Op>): int {
    if ops == [] then -1
    else
      var front := ops[..|ops| - 1];
      if Generation(c, cfg, ops) > Generation(c, cfg, front) then |ops| - 1 else Starter(c, cfg, front)
  }

  /** The operation at j took the g-th data key into use. */
  ghost predicate Starts(c: Crypto, cfg: Config, ops: seq<Op>, j: nat, g: nat) {
    j < |ops| && ops[j].Enc? && Generation(c, cfg, ops[..j + 1]) == g == Generation(c, cfg, ops[..j]) + 1
  }

  lemma {:induction false} ExpiryCountsFromStart(c: Crypto, cfg: Config, ops: seq<Op>)
    ensures -1 <= Starter(c, cfg, ops) < |ops|
    ensures After(c, cfg, ops).cur.Some? <==> Starter(c, cfg, ops) >= 0
    ensures var j := Starter(c, cfg, ops);
      j >= 0 ==> Starts(c, cfg, ops, j, Generation(c, cfg, ops)) && After(c, cfg, ops).expiry == ops[j].now + cfg.dekTTL
  {
    hide Encode, Decode;
    if ops != [] {
      var n := |ops| - 1;
      var front := ops[..n];
      ExpiryCountsFromStart(c, cfg, front);
      var j := Starter(c, cfg, ops);
      assert ops[..n + 1] == ops;
      assert 0 <= j < n ==> ops[..j + 1] == front[..j + 1] && ops[..j] == front[..j];
    }
  }

  /** Every message sealed in a run is sealed no later than the time at which its data key was
      taken into use plus the key's time to live. */
  lemma SealedWithinLifetime(c: Crypto, cfg: Config, ops: seq<Op>, i: nat)
    requires cfg.dekTTL > 0 && i < |ops| && ops[i].Enc?
    requires var e := ops[i]; Encrypt(c, cfg, After(c, cfg, ops[..i]), e.pt, e.aad, e.now, e.generated, e.nonce).1.Some?
    ensures exists j: nat ::
      j <= i && Starts(c, cfg, ops, j, Generation(c, cfg, ops[..i + 1])) && ops[i].now <= ops[j].now + cfg.dekTTL
  {
    hide Encode, Decode, Generation, Starter;
    var upTo := ops[..i + 1];
    assert upTo[..i] == ops[..i];
    ExpiryCountsFromStart(c, cfg, upTo);
    var j := Starter(c, cfg, upTo);
    assert After(c, cfg, upTo).cur.Some?;
    assert upTo[..j + 1] == ops[..j + 1] && upTo[..j] == ops[..j];
    assert Starts(c, cfg, ops, j, Generation(c, cfg, upTo));
  }

  // ------------------------------------------------------------ the running code

  class DekCache {
    const ttl: int
    var m: map<string, Entry>

    constructor (ttl: int)
      ensures this.ttl == ttl && m == map[]
    {
      this.ttl := ttl;
      m := map[];
    }

    method Get(key: string, now: int) returns (r: Option<Aead>)
      modifies this
      ensures r == if key in old(m) && now <= old(m)[key].exp then Some(old(m)[key].aead) else None
      ensures m == if r.None? then old(m) - {key} else old(m)
    {
      if key !in m {
        return None;
      }
      var entry := m[key];
      if now > entry.exp {
        m := m - {key};
        return None;
      }
      return Some(entry.aead);
    }

    method Put(key: string, aead: Aead, now: int)
      modifies this
      ensures m == old(m)[key := Entry(aead, now + ttl)]
    {
      m := m[key := Entry(aead, now + ttl)];
    }
  }

  class EnvelopeCipher {
    const c: Crypto
    const cfg: Config
    const cache: DekCache
    var curAead: Option<Aead>
    var curWrapped: Bytes
    var uses: nat
    var dekExpiry: int

    ghost predicate Valid()
      reads this
    {
      cache.ttl == cfg.cacheTTL
    }

    function Value(): State
      reads this, cache
    {
      State(if curAead.Some? then Some(Current(curAead.value, curWrapped)) else None, uses, dekExpiry, cache.m)
    }

    constructor (c: Crypto, given: Config)
      ensures Valid() && this.c == c && cfg == Effective(given) && fresh(cache) && Value() == NO_KEYS
    {
      this.c := c;
      cfg := Effective(given);
      cache := new DekCache(Effective(given).cacheTTL);
      curAead := None;
      curWrapped := [];
      uses := 0;
      dekExpiry := 0;
    }

    method UseDEK(now: int, generated: Option<(Bytes, Bytes)>) returns (r: Option<Current>)
      requires Valid()
      modifies this, cache
      ensures Valid() && (Value(), r) == CurrentDEK(c, cfg, old(Value()), now, generated)
    {
      if curAead == None || uses >= cfg.maxUses || now > dekExpiry {
        if generated == None {
          return None;
        }
        var (dek, wrapped) := generated.value;
        var aead := AeadFromKey(dek);
        if aead == None {
          return None;
        }
        curAead := aead;
        curWrapped := wrapped;
        uses := 0;
        dekExpiry := now + cfg.dekTTL;
        cache.Put(c.digest(wrapped), aead.value, now);
      }
      uses := uses + 1;
      return Some(Current(curAead.value, curWrapped));
    }

    method FindAead(wrapped: Bytes, now: int, up: bool) returns (r: Option<Aead>)
      requires Valid()
      modifies cache
      ensures Valid() && (Value(), r) == AeadForWrapped(c, cfg, old(Value()), wrapped, now, up)
    {
      var key := c.digest(wrapped);
      r := cache.Get(key, now);
      if r.Some? {
        return;
      }
      var dek := if up then c.unwrap(wrapped) else None;
      if dek == None {
        return None;
      }
      r := AeadFromKey(dek.value);
      if r.Some? {
        cache.Put(key, r.value, now);
      }
    }

    method Seal(pt: Bytes, aad: Bytes, now: int, generated: Option<(Bytes, Bytes)>, nonce: Option<Bytes>) returns (blob: Option<Bytes>)
      requires Valid()
      modifies this, cache
      ensures Valid() && (Value(), blob) == Encrypt(c, cfg, old(Value()), pt, aad, now, generated, nonce)
    {
      var cur := UseDEK(now, generated);
      if cur == None || nonce == None {
        return None;
      }
      var ct := c.seal(cur.value.aead, nonce.value, pt, aad);
      return Some(Encode(Parts(cur.value.wrapped, nonce.value, ct)));
    }

    method Open(blob: Bytes, aad: Bytes, now: int, up: bool) returns (r: Result<Bytes, DecryptError>)
      requires Valid()
      modifies cache
      ensures Valid() && (Value(), r) == Decrypt(c, cfg, old(Value()), blob, aad, now, up)
    {
      var parts := Decode(blob);
      if parts.Err? {
        return Err(BadFormat(parts.error));
      }
      var aead := FindAead(parts.value.wrapped, now, up);
      if aead == None {
        return Err(NoKey);
      }
      return Opened(c, aead.value, parts.value, aad);
    }
  }
}
