/** The encrypted envelope of a backup: framing, chunked encryption, and its inverse. */
module Envelope {
  import opened Common

  const MAGIC: Bytes := [0x4D, 0x53, 0x48, 0x42, 0x4B, 0x55, 0x50, 0x31]
  const MAX_HEADER := 0x2000
  const TAG := 16
  const CHUNK := 0x10_0000
  const MAX_BUNDLE := 0x8000_0000

  type Key = Bytes

  datatype Header = Header(salt: Bytes, nonce: Bytes)

  datatype Parsed = Header1(header: Header) | Unreadable | Unsupported

  /**
    * The primitives, which are not part of this model: the header's text form; the key derivation of section 6 of
    * RFC 7914; the key stream, how a byte is mixed with it, and the tag of section 7 of NIST SP 800-38D.
    */
  datatype Primitives = Primitives(
    write: Header -> Bytes,
    parse: Bytes -> Parsed,
    derive: (string, Bytes) -> Key,
    keystream: (Key, Bytes, nat) -> byte,
    mix: (byte, byte) -> byte,
    authenticate: (Key, Bytes, Bytes, Bytes) -> Bytes)

  predicate ValidHeader(h: Header) {
    |h.salt| == 16 && |h.nonce| == 12
  }

  ghost predicate Sound(x: Primitives) {
    && (forall h | ValidHeader(h) :: 2 <= |x.write(h)| <= MAX_HEADER && x.parse(x.write(h)) == Header1(h))
    && (forall k, n, a, c :: |x.authenticate(k, n, a, c)| == TAG)
    && (forall b, s :: x.mix(x.mix(b, s), s) == b)
  }

  // ---------------------------------------------------------------- lengths

  function BigEndian(n: nat): (b: Bytes)
    requires n < 0x1_0000_0000
    ensures |b| == 4
  {
    [(n / 0x100_0000) as byte, (n / 0x1_0000 % 0x100) as byte, (n / 0x100 % 0x100) as byte, (n % 0x100) as byte]
  }

  function FromDigits(a: nat, b: nat, c: nat, d: nat): nat {
    ((a * 0x100 + b) * 0x100 + c) * 0x100 + d
  }

  function FromBigEndian(b: Bytes): (n: nat)
    requires |b| == 4
  {
    FromDigits(b[0] as nat, b[1] as nat, b[2] as nat, b[3] as nat)
  }

  lemma DigitsRoundTrip(n: nat)
    requires n < 0x1_0000_0000
    ensures FromDigits(n / 0x100_0000, n / 0x1_0000 % 0x100, n / 0x100 % 0x100, n % 0x100) == n
  {
    assert n / 0x1_0000 == n / 0x100 / 0x100 && n / 0x100_0000 == n / 0x1_0000 / 0x100;
  }

  lemma DigitsOf(a: nat, b: nat, c: nat, d: nat)
    requires a < 0x100 && b < 0x100 && c < 0x100 && d < 0x100
    ensures var n := FromDigits(a, b, c, d);
      && n < 0x1_0000_0000 && n / 0x100_0000 == a && n / 0x1_0000 % 0x100 == b && n / 0x100 % 0x100 == c
        && n % 0x100 == d
  {
    var n := FromDigits(a, b, c, d);
    assert n / 0x100 == (a * 0x100 + b) * 0x100 + c;
    assert n / 0x1_0000 == a * 0x100 + b;
  }

  lemma BigEndianRoundTrip(n: nat)
    requires n < 0x1_0000_0000
    ensures FromBigEndian(BigEndian(n)) == n
  {
    hide FromDigits;
    DigitsRoundTrip(n);
  }

  lemma FromBigEndianRoundTrip(b: Bytes)
    requires |b| == 4
    ensures FromBigEndian(b) < 0x1_0000_0000 && BigEndian(FromBigEndian(b)) == b
  {
    hide FromDigits;
    DigitsOf(b[0] as nat, b[1] as nat, b[2] as nat, b[3] as nat);
  }

  // ---------------------------------------------------------------- the format

  /** Bytes combined with the key stream from `offset` on; the same operation encrypts and decrypts. */
  function Cipher(x: Primitives, k: Key, nonce: Bytes, offset: nat, data: Bytes): Bytes {
    seq(|data|, i requires 0 <= i < |data| => x.mix(data[i], x.keystream(k, nonce, offset + i)))
  }

  lemma CipherIsAnInvolution(x: Primitives, k: Key, nonce: Bytes, data: Bytes)
    requires Sound(x)
    ensures Cipher(x, k, nonce, 0, Cipher(x, k, nonce, 0, data)) == data
  {
  }

  lemma CipherByChunks(x: Primitives, k: Key, nonce: Bytes, done: Bytes, chunk: Bytes)
    ensures Cipher(x, k, nonce, 0, done + chunk) == Cipher(x, k, nonce, 0, done) + Cipher(x, k, nonce, |done|, chunk)
  {
  }

  function Frame(header: Bytes, ciphertext: Bytes, tag: Bytes): Bytes
    requires |header| < 0x1_0000_0000
  {
    MAGIC + BigEndian(|header|) + header + ciphertext + tag
  }

  /** A header, a ciphertext and a tag that make up the bundle. */
  predicate Splits(bundle: Bytes, header: Bytes, ciphertext: Bytes, tag: Bytes) {
    2 <= |header| <= MAX_HEADER && |tag| == TAG && bundle == Frame(header, ciphertext, tag)
  }

  /** The parts that the reader takes by position. */
  lemma PartsByPosition(bundle: Bytes, header: Bytes, ciphertext: Bytes, tag: Bytes)
    requires Splits(bundle, header, ciphertext, tag)
    ensures |bundle| == 12 + |header| + |ciphertext| + TAG
    ensures bundle[..8] == MAGIC && FromBigEndian(bundle[8..12]) == |header|
    ensures bundle[12..12 + |header|] == header
    ensures bundle[12 + |header|..|bundle| - TAG] == ciphertext && bundle[|bundle| - TAG..] == tag
  {
    BigEndianRoundTrip(|header|);
    assert bundle[8..12] == BigEndian(|header|);
  }

  /** A bundle is split in one way only. */
  lemma SplitIsUnique(bundle: Bytes, h1: Bytes, c1: Bytes, t1: Bytes, h2: Bytes, c2: Bytes, t2: Bytes)
    requires Splits(bundle, h1, c1, t1) && Splits(bundle, h2, c2, t2)
    ensures h1 == h2 && c1 == c2 && t1 == t2
  {
    PartsByPosition(bundle, h1, c1, t1);
    PartsByPosition(bundle, h2, c2, t2);
  }

  function Seal(x: Primitives, h: Header, passphrase: string, plaintext: Bytes): Bytes
    requires |x.write(h)| < 0x1_0000_0000
  {
    var key := x.derive(passphrase, h.salt);
    var ciphertext := Cipher(x, key, h.nonce, 0, plaintext);
    Frame(x.write(h), ciphertext, x.authenticate(key, h.nonce, x.write(h), ciphertext))
  }

  /** The bundle is authentic under the passphrase and holds this plaintext, which is not empty. */
  ghost predicate Opens(x: Primitives, bundle: Bytes, passphrase: string, plaintext: Bytes) {
    && plaintext != [] && |bundle| <= MAX_BUNDLE && passphrase != ""
    && exists header, ciphertext, tag ::
         && Splits(bundle, header, ciphertext, tag) && x.parse(header).Header1?
         && var h := x.parse(header).header;
            var key := x.derive(passphrase, h.salt);
            tag == x.authenticate(key, h.nonce, header, ciphertext)
              && plaintext == Cipher(x, key, h.nonce, 0, ciphertext)
  }

  /** What was sealed opens to itself, and to nothing else; unless it is empty, which never opens. */
  lemma SealedOpensIff(x: Primitives, h: Header, passphrase: string, plaintext: Bytes, other: Bytes)
    requires Sound(x) && ValidHeader(h) && passphrase != ""
    ensures var bundle := Seal(x, h, passphrase, plaintext);
      Opens(x, bundle, passphrase, other) <==> other == plaintext && plaintext != [] && |bundle| <= MAX_BUNDLE
  {
    var bundle, header := Seal(x, h, passphrase, plaintext), x.write(h);
    var key := x.derive(passphrase, h.salt);
    var ciphertext := Cipher(x, key, h.nonce, 0, plaintext);
    var tag := x.authenticate(key, h.nonce, header, ciphertext);
    CipherIsAnInvolution(x, key, h.nonce, plaintext);
    assert Splits(bundle, header, ciphertext, tag);
    if Opens(x, bundle, passphrase, other) {
      var h2, c2, t2 :| Splits(bundle, h2, c2, t2) && x.parse(h2).Header1?
        && var p := x.parse(h2).header; other == Cipher(x, x.derive(passphrase, p.salt), p.nonce, 0, c2);
      SplitIsUnique(bundle, header, ciphertext, tag, h2, c2, t2);
    }
  }

  /** The bytes of the envelope, place by place. */
  lemma BytesOfAFrame(header: Bytes, ciphertext: Bytes, tag: Bytes)
    requires |header| <= MAX_HEADER && |tag| == TAG
    ensures var (b, n, m) := (Frame(header, ciphertext, tag), |header|, |ciphertext|);
      && |b| == 12 + n + m + 16
      && (forall i | 0 <= i < 8 :: b[i] as char == "MSHBKUP1"[i])
      && b[8] as int * 0x100_0000 + b[9] as int * 0x1_0000 + b[10] as int * 0x100 + b[11] as int == n
      && b[12..12 + n] == header && b[12 + n..12 + n + m] == ciphertext && b[12 + n + m..] == tag
  {
    BigEndianRoundTrip(|header|);
    hide BigEndian;
    var b := Frame(header, ciphertext, tag);
    assert b[8..12] == BigEndian(|header|);
    assert b[8] == b[8..12][0] && b[9] == b[8..12][1] && b[10] == b[8..12][2] && b[11] == b[8..12][3];
  }

  // ---------------------------------------------------------------- the two directions

  datatype Error = PassphraseRequired | TooLarge | InvalidBackup | DecryptionFailed

  datatype Result = Ok(bytes: Bytes) | Err(error: Error)

  /** Data passed through the cipher chunk by chunk. */
  method Stream(x: Primitives, k: Key, nonce: Bytes, data: Bytes) returns (out: Bytes)
    ensures out == Cipher(x, k, nonce, 0, data)
  {
    out := [];
    var unread: nat := |data|;
    while unread > 0
      invariant unread <= |data|
      invariant out == Cipher(x, k, nonce, 0, data[..|data| - unread])
    {
      var start := |data| - unread;
      var chunk := data[start..start + Min(CHUNK, unread)];
      CipherByChunks(x, k, nonce, data[..start], chunk);
      assert data[..start] + chunk == data[..start + |chunk|];
      out := out + Cipher(x, k, nonce, |out|, chunk);
      unread := unread - |chunk|;
    }
    assert data[..|data|] == data;
  }

  method EncryptFile(x: Primitives, source: Bytes, h: Header, passphrase: string) returns (r: Result)
    requires Sound(x) && ValidHeader(h)
    ensures passphrase == "" ==> r == Err(PassphraseRequired)
    ensures passphrase != "" ==>
      r == if |Seal(x, h, passphrase, source)| <= MAX_BUNDLE then Ok(Seal(x, h, passphrase, source)) else Err(TooLarge)
    ensures r.Ok? <==> passphrase != "" && 28 + |x.write(h)| + |source| <= 0x8000_0000
    ensures r.Ok? ==>
      var (b, n, m, key) := (r.bytes, |x.write(h)|, |source|, x.derive(passphrase, h.salt));
      && |b| == 12 + n + m + 16
      && (forall i | 0 <= i < 8 :: b[i] as char == "MSHBKUP1"[i])
      && b[8] as int * 0x100_0000 + b[9] as int * 0x1_0000 + b[10] as int * 0x100 + b[11] as int == n
      && b[12..12 + n] == x.write(h)
      && (forall i | 0 <= i < m :: b[12 + n + i] == x.mix(source[i], x.keystream(key, h.nonce, i)))
      && b[12 + n + m..] == x.authenticate(key, h.nonce, x.write(h), b[12 + n..12 + n + m])
  {
    if passphrase == "" {
      return Err(PassphraseRequired);
    }
    var header := x.write(h);
    assert x.parse(header) == Header1(h) && |header| <= MAX_HEADER;
    if |source| + |MAGIC| + 4 + |header| + TAG > MAX_BUNDLE {
      return Err(TooLarge);
    }
    var key := x.derive(passphrase, h.salt);
    var ciphertext := Stream(x, key, h.nonce, source);
    r := Ok(MAGIC + BigEndian(|header|) + header + ciphertext + x.authenticate(key, h.nonce, header, ciphertext));
    BytesOfAFrame(header, ciphertext, x.authenticate(key, h.nonce, header, ciphertext));
    assert forall i | 0 <= i < |source| :: r.bytes[12 + |header| + i] == ciphertext[i];
  }

  /** The header and where the ciphertext starts, when the bundle begins as it should. */
  predicate Begins(bundle: Bytes, header: Bytes) {
    && 2 <= |header| <= MAX_HEADER && 12 + |header| <= |bundle|
    && bundle[..12 + |header|] == MAGIC + BigEndian(|header|) + header
  }

  lemma SplitBegins(bundle: Bytes, header: Bytes, ciphertext: Bytes, tag: Bytes)
    requires Splits(bundle, header, ciphertext, tag)
    ensures Begins(bundle, header)
  {
    assert bundle[..12 + |header|] == MAGIC + BigEndian(|header|) + header;
  }

  lemma BeginsByPosition(bundle: Bytes, header: Bytes)
    requires Begins(bundle, header)
    ensures bundle[..8] == MAGIC && FromBigEndian(bundle[8..12]) == |header| && bundle[12..12 + |header|] == header
  {
    hide BigEndian, FromBigEndian;
    BigEndianRoundTrip(|header|);
    var front := bundle[..12 + |header|];
    assert front[..8] == MAGIC && front[8..12] == BigEndian(|header|) && front[12..] == header;
    assert bundle[..8] == front[..8] && bundle[8..12] == front[8..12] && bundle[12..12 + |header|] == front[12..];
  }

  lemma PositionBegins(bundle: Bytes)
    requires |bundle| >= 12 && bundle[..8] == MAGIC
    ensures var n := FromBigEndian(bundle[8..12]);
      2 <= n <= MAX_HEADER && 12 + n <= |bundle| ==> Begins(bundle, bundle[12..12 + n])
  {
    hide BigEndian, FromBigEndian;
    var n := FromBigEndian(bundle[8..12]);
    FromBigEndianRoundTrip(bundle[8..12]);
    if 2 <= n <= MAX_HEADER && 12 + n <= |bundle| {
      assert bundle[..12 + n] == bundle[..8] + bundle[8..12] + bundle[12..12 + n];
    }
  }

  method ReadHeader(x: Primitives, bundle: Bytes) returns (r: Result, h: Header)
    ensures r.Ok? ==> Begins(bundle, r.bytes) && x.parse(r.bytes) == Header1(h)
    ensures r.Err? ==>
      && r.error in {InvalidBackup, DecryptionFailed}
      && forall header :: Begins(bundle, header) ==> !x.parse(header).Header1?
  {
    hide BigEndian, FromBigEndian, Begins;
    h := Header([], []);
    forall header | Begins(bundle, header)
      ensures BeginsAt(bundle, header)
    {
      BeginsByPosition(bundle, header);
      LongEnough(bundle, header);
    }
    if |bundle| < 12 || bundle[..8] != MAGIC {
      return Err(InvalidBackup), h;
    }
    var length := FromBigEndian(bundle[8..12]);
    PositionBegins(bundle);
    if !(2 <= length <= MAX_HEADER) || 12 + length > |bundle| {
      return Err(InvalidBackup), h;
    }
    var header := bundle[12..12 + length];
    match x.parse(header)
    case Unreadable => return Err(DecryptionFailed), h;
    case Unsupported => return Err(InvalidBackup), h;
    case Header1(parsed) => return Ok(header), parsed;
  }

  predicate BeginsAt(bundle: Bytes, header: Bytes) {
    && 12 <= |bundle| && bundle[..8] == MAGIC
    && var n := FromBigEndian(bundle[8..12]);
       2 <= n <= MAX_HEADER && 12 + n <= |bundle| && header == bundle[12..12 + n]
  }

  lemma LongEnough(bundle: Bytes, header: Bytes)
    requires Begins(bundle, header)
    ensures 12 + |header| <= |bundle| && 2 <= |header| <= MAX_HEADER
  {
  }

  lemma RestSplits(bundle: Bytes, header: Bytes)
    requires Begins(bundle, header) && |bundle| >= 12 + |header| + TAG
    ensures Splits(bundle, header, bundle[12 + |header|..|bundle| - TAG], bundle[|bundle| - TAG..])
  {
    hide BigEndian;
    var start := 12 + |header|;
    assert bundle == bundle[..start] + bundle[start..|bundle| - TAG] + bundle[|bundle| - TAG..];
  }

  lemma OnlySplitCounts(x: Primitives, bundle: Bytes, passphrase: string, p: Bytes, header: Bytes, c: Bytes, t: Bytes)
    requires Opens(x, bundle, passphrase, p) && Splits(bundle, header, c, t)
    ensures x.parse(header).Header1?
    ensures var h := x.parse(header).header; var key := x.derive(passphrase, h.salt);
      t == x.authenticate(key, h.nonce, header, c) && p == Cipher(x, key, h.nonce, 0, c) && p != []
  {
    hide Frame;
    var h2, c2, t2 :| Splits(bundle, h2, c2, t2) && x.parse(h2).Header1?
      && var h := x.parse(h2).header; var key := x.derive(passphrase, h.salt);
         t2 == x.authenticate(key, h.nonce, h2, c2) && p == Cipher(x, key, h.nonce, 0, c2);
    SplitIsUnique(bundle, header, c, t, h2, c2, t2);
  }

  /** A bundle opens to one plaintext. */
  lemma OpensOnce(x: Primitives, bundle: Bytes, passphrase: string, p: Bytes, q: Bytes)
    requires Opens(x, bundle, passphrase, p) && Opens(x, bundle, passphrase, q)
    ensures p == q
  {
    hide Frame;
    var header, c, t :| Splits(bundle, header, c, t) && x.parse(header).Header1?
      && var h := x.parse(header).header; p == Cipher(x, x.derive(passphrase, h.salt), h.nonce, 0, c);
    OnlySplitCounts(x, bundle, passphrase, q, header, c, t);
  }

  lemma OpeningBegins(x: Primitives, bundle: Bytes, passphrase: string, p: Bytes)
    requires Opens(x, bundle, passphrase, p)
    ensures exists header :: Begins(bundle, header) && x.parse(header).Header1? && |bundle| > 12 + |header| + TAG
  {
    hide Frame, Begins;
    var h2, c2, t2 :| Splits(bundle, h2, c2, t2) && x.parse(h2).Header1?
      && var h := x.parse(h2).header; p == Cipher(x, x.derive(passphrase, h.salt), h.nonce, 0, c2);
    var h := x.parse(h2).header;
    SameLength(x, x.derive(passphrase, h.salt), h.nonce, c2);
    SplitBegins(bundle, h2, c2, t2);
    PartsByPosition(bundle, h2, c2, t2);
  }

  lemma BeginsOnce(bundle: Bytes, a: Bytes, b: Bytes)
    requires Begins(bundle, a) && Begins(bundle, b)
    ensures a == b
  {
    BeginsByPosition(bundle, a);
    BeginsByPosition(bundle, b);
  }

  /** Reads exactly the bundles that open, and refuses every other. */
  method DecryptFile(x: Primitives, bundle: Bytes, passphrase: string) returns (r: Result)
    requires Sound(x)
    ensures r.Ok? ==> Opens(x, bundle, passphrase, r.bytes)
    ensures r.Err? ==> forall p :: !Opens(x, bundle, passphrase, p)
    ensures r == Err(PassphraseRequired) <==> passphrase == ""
    ensures r == Err(TooLarge) <==> passphrase != "" && |bundle| > 0x8000_0000
    ensures r.Ok? ==>
      var b := bundle;
      && |b| > 28
      && var n := b[8] as int * 0x100_0000 + b[9] as int * 0x1_0000 + b[10] as int * 0x100 + b[11] as int;
         var m := |b| - 28 - n;
         && |r.bytes| == m > 0 && x.parse(b[12..12 + n]).Header1?
         && var h := x.parse(b[12..12 + n]).header;
            var key := x.derive(passphrase, h.salt);
            && (forall i | 0 <= i < m :: r.bytes[i] == x.mix(b[12 + n + i], x.keystream(key, h.nonce, i)))
            && b[12 + n + m..] == x.authenticate(key, h.nonce, b[12..12 + n], b[12 + n..12 + n + m])
  {
    hide Begins, Splits, Frame, Cipher, Opens;
    forall p | Opens(x, bundle, passphrase, p)
      ensures |bundle| <= MAX_BUNDLE && passphrase != ""
      ensures exists header :: Begins(bundle, header) && x.parse(header).Header1? && |bundle| > 12 + |header| + TAG
    {
      OpeningBegins(x, bundle, passphrase, p);
      OpensWithinBounds(x, bundle, passphrase, p);
    }
    if passphrase == "" {
      return Err(PassphraseRequired);
    }
    if |bundle| > MAX_BUNDLE {
      return Err(TooLarge);
    }
    var head, h := ReadHeader(x, bundle);
    if head.Err? {
      return head;
    }
    var header := head.bytes;
    LongEnough(bundle, header);
    forall other | Begins(bundle, other)
      ensures other == header
    {
      BeginsOnce(bundle, header, other);
    }
    var start := 12 + |header|;
    if |bundle| - start <= TAG {
      return Err(InvalidBackup);
    }
    var ciphertext, tag := bundle[start..|bundle| - TAG], bundle[|bundle| - TAG..];
    RestSplits(bundle, header);
    var key := x.derive(passphrase, h.salt);
    var plaintext := Stream(x, key, h.nonce, ciphertext);
    if tag != x.authenticate(key, h.nonce, header, ciphertext) {
      forall p | Opens(x, bundle, passphrase, p)
        ensures false
      {
        OnlySplitCounts(x, bundle, passphrase, p, header, ciphertext, tag);
      }
      return Err(DecryptionFailed);
    }
    SameLength(x, key, h.nonce, ciphertext);
    OpensBySplit(x, bundle, passphrase, header, ciphertext, tag);
    OpenedBytes(x, bundle, header, h, key, ciphertext, tag);
    r := Ok(plaintext);
  }

  lemma OpenedBytes(
    x: Primitives, b: Bytes, header: Bytes, h: Header, key: Key, ciphertext: Bytes, tag: Bytes)
    requires Splits(b, header, ciphertext, tag)
    ensures var n := b[8] as int * 0x100_0000 + b[9] as int * 0x1_0000 + b[10] as int * 0x100 + b[11] as int;
      var p := Cipher(x, key, h.nonce, 0, ciphertext);
      && |b| == 28 + n + |p| && b[12..12 + n] == header
      && (forall i | 0 <= i < |p| :: p[i] == x.mix(b[12 + n + i], x.keystream(key, h.nonce, i)))
      && b[12 + n..12 + n + |p|] == ciphertext && b[12 + n + |p|..] == tag
  {
    BytesOfAFrame(header, ciphertext, tag);
    hide Frame;
    var n := |header|;
    var middle := b[12 + n..12 + n + |ciphertext|];
    assert forall i | 0 <= i < |ciphertext| :: middle[i] == b[12 + n + i];
  }

  lemma OpensWithinBounds(x: Primitives, bundle: Bytes, passphrase: string, p: Bytes)
    requires Opens(x, bundle, passphrase, p)
    ensures |bundle| <= MAX_BUNDLE && passphrase != ""
  {
  }

  lemma SameLength(x: Primitives, k: Key, nonce: Bytes, data: Bytes)
    ensures |Cipher(x, k, nonce, 0, data)| == |data|
  {
  }

  lemma OpensBySplit(x: Primitives, bundle: Bytes, passphrase: string, header: Bytes, c: Bytes, t: Bytes)
    requires Splits(bundle, header, c, t) && x.parse(header).Header1? && c != [] && |bundle| <= MAX_BUNDLE
    requires passphrase != ""
    requires var h := x.parse(header).header; t == x.authenticate(x.derive(passphrase, h.salt), h.nonce, header, c)
    ensures var h := x.parse(header).header;
      Opens(x, bundle, passphrase, Cipher(x, x.derive(passphrase, h.salt), h.nonce, 0, c))
  {
    hide Splits;
    var h := x.parse(header).header;
    SameLength(x, x.derive(passphrase, h.salt), h.nonce, c);
  }
}
