/** The signing side of mutable DHT items (BEP 44): the payload that is
    signed for a value, its sequence number and an optional salt, the size
    and presence checks in front of it, and the salt generator.  The
    Ed25519 primitives, the generic hash and the entropy source are
    parameters (`Primitives`). */
module Bitsign {
  import opened Wrappers
  import opened Bencode

  const MaxValueSize := 1000
  const MaxSaltSize := 64
  /** Lower bound on a salt that `Sign` accepts and `Salt` produces. */
  const MinSaltSize := 16
  const DefaultSaltSize := 32

  const SaltKey: Bytes := [115, 97, 108, 116]  // "salt"
  const SeqKey: Bytes := [115, 101, 113]       // "seq"
  const ValueKey: Bytes := [118]               // "v"

  /** A dynamically typed argument: a buffer, or anything else. */
  datatype Arg = Buffer(bytes: Bytes) | NotBuffer

  /** The options of `signable`; an omitted options object is `NoOptions`.
      Other fields (such as `keypair`) are ignored. */
  datatype SignableOptions = SignableOptions(seqNum: Option<int>, salt: Option<Arg>)

  const NoOptions := SignableOptions(None, None)

  /** A keypair object as a caller passes it; either field may be missing. */
  datatype KeyPairArg = KeyPairArg(publicKey: Option<Arg>, secretKey: Option<Arg>)

  datatype SignOptions = SignOptions(seqNum: Option<int>, salt: Option<Arg>, keypair: Option<KeyPairArg>)

  /** The fields of `SignOptions` that `Sign` hands to the payload builder. */
  function PayloadOptions(o: SignOptions): SignableOptions {
    SignableOptions(o.seqNum, o.salt)
  }

  datatype Error =
    | ValueNotBuffer        // "Value must be a buffer"
    | ValueTooLarge         // "Value size must be <= 1000"
    | SaltNotBuffer         // "salt must be a buffer"
    | SaltTooLarge          // "salt size must be no greater than 64 bytes"
    | SaltSizeOutOfRange    // "salt size must be between 16 and 64 bytes (inclusive)"
    | OptionsRequired       // "Options are required"
    | KeypairRequired       // "keypair is required"
    | SecretKeyRequired     // "keypair.secretKey is required"
    | MsgNotBuffer          // "msg must be a buffer"
    | SizeOutOfRange        // a requested salt size outside 16..64

  /** The external collaborators.  `randomBytes(n)` is what the entropy
      source delivers when `n` random bytes are asked for at this call;
      `genericHash(input, n)` is the `n`-byte generic hash of `input`;
      `signDetached(msg, secretKey)` and `verifyDetached(sig, msg, publicKey)`
      are Ed25519; `publicKeyOf(secretKey)` is the public half of a keypair. */
  datatype Primitives = Primitives(
    randomBytes: nat -> Bytes,
    genericHash: (Bytes, nat) -> Bytes,
    signDetached: (Bytes, Bytes) -> Bytes,
    verifyDetached: (Bytes, Bytes, Bytes) -> bool,
    publicKeyOf: Bytes -> Bytes)

  /** What the model relies on from the primitives: output lengths, and that
      a signature made with a secret key verifies under its public key. */
  ghost predicate Sound(p: Primitives) {
    && (forall n: nat :: |p.randomBytes(n)| == n)
    && (forall m: Bytes, n: nat :: |p.genericHash(m, n)| == n)
    && (forall m: Bytes, sk: Bytes :: |p.signDetached(m, sk)| == 64)
    && (forall m: Bytes, sk: Bytes :: p.verifyDetached(p.signDetached(m, sk), m, p.publicKeyOf(sk)))
  }

  // ---------------------------------------------------------------------
  // The signable payload

  /** The dictionary `{salt?, seq, v}` in key order. */
  function Fields(salt: Option<Bytes>, seqNum: int, value: Bytes): seq<Entry> {
    (if salt.Some? then [Entry(SaltKey, ByteString(salt.value))] else [])
    + [Entry(SeqKey, Integer(seqNum)), Entry(ValueKey, ByteString(value))]
  }

  /** The bytes that are signed: key and value tokens of `salt` (when
      present), `seq` and `v`, one after the other, with no dictionary
      delimiters around them. */
  function Payload(salt: Option<Bytes>, seqNum: int, value: Bytes): Bytes {
    (if salt.Some? then EncodeString(SaltKey) + EncodeString(salt.value) else [])
    + EncodeString(SeqKey) + EncodeInteger(seqNum)
    + EncodeString(ValueKey) + EncodeString(value)
  }

  function SeqNumOrDefault(seqNum: Option<int>): int {
    if seqNum.Some? then seqNum.value else 0
  }

  function SaltBytes(salt: Option<Arg>): Option<Bytes>
    requires salt.Some? ==> salt.value.Buffer?
  {
    if salt.Some? then Some(salt.value.bytes) else None
  }

  /** `signable(value, opts)`: rejects a value that is not a buffer or is
      longer than 1000 bytes, and a salt that is given but is not a buffer or
      is longer than 64 bytes; otherwise returns the payload, with `seq`
      defaulting to 0.  No lower bound applies to the salt here. */
  function Signable(value: Arg, opts: SignableOptions): (r: Result<Bytes, Error>)
    ensures r.Success? <==>
      && value.Buffer? && |value.bytes| <= MaxValueSize
      && (opts.salt.Some? ==> opts.salt.value.Buffer? && |opts.salt.value.bytes| <= MaxSaltSize)
    ensures r.Success? ==>
      r.value == Payload(SaltBytes(opts.salt), SeqNumOrDefault(opts.seqNum), value.bytes)
    ensures r.Failure? ==>
      match r.error
      case ValueNotBuffer => value.NotBuffer?
      case ValueTooLarge => value.Buffer? && |value.bytes| > MaxValueSize
      case SaltNotBuffer => opts.salt == Some(NotBuffer)
      case SaltTooLarge => opts.salt.Some? && opts.salt.value.Buffer? && |opts.salt.value.bytes| > MaxSaltSize
      case _ => false
  {
    if value.NotBuffer? then Failure(ValueNotBuffer)
    else if |value.bytes| > MaxValueSize then Failure(ValueTooLarge)
    else if opts.salt == Some(NotBuffer) then Failure(SaltNotBuffer)
    else if opts.salt.Some? && |opts.salt.value.bytes| > MaxSaltSize then Failure(SaltTooLarge)
    else Success(Payload(SaltBytes(opts.salt), SeqNumOrDefault(opts.seqNum), value.bytes))
  }

  /** The dictionary `{salt?, seq, v}` lists its keys in bencode's sorted
      order: `salt`, `seq`, `v`. */
  lemma FieldsSorted(salt: Option<Bytes>, seqNum: int, value: Bytes)
    ensures SortedKeys(Fields(salt, seqNum, value))
  {
    assert LexLess(SeqKey, ValueKey);
    assert LexLess(SaltKey, SeqKey) by {
      assert SaltKey[0] == SeqKey[0] && SaltKey[1..][0] < SeqKey[1..][0];
    }
    var d := Fields(salt, seqNum, value);
    if salt.Some? {
      assert d[0].key == SaltKey && d[1].key == SeqKey && d[2].key == ValueKey;
    } else {
      assert d[0].key == SeqKey && d[1].key == ValueKey;
    }
  }

  /** The payload is the bencoded dictionary `{salt?, seq, v}` with its
      first and last byte removed. */
  lemma PayloadIsStrippedDict(salt: Option<Bytes>, seqNum: int, value: Bytes)
    ensures EncodeDict(Fields(salt, seqNum, value)) == [DictStart] + Payload(salt, seqNum, value) + [End]
  {
    var s := Entry(SeqKey, Integer(seqNum));
    var v := Entry(ValueKey, ByteString(value));
    EncodeEntriesCons(v, []);
    EncodeEntriesCons(s, [v]);
    var tail := EncodeString(SeqKey) + EncodeInteger(seqNum) + (EncodeString(ValueKey) + EncodeString(value));
    assert EncodeEntries([s, v]) == tail;
    if salt.Some? {
      var a := Entry(SaltKey, ByteString(salt.value));
      assert Fields(salt, seqNum, value) == [a] + [s, v];
      EncodeEntriesCons(a, [s, v]);
      assert Payload(salt, seqNum, value) == EncodeString(SaltKey) + EncodeString(salt.value) + tail;
    } else {
      assert Fields(salt, seqNum, value) == [s, v];
      assert Payload(salt, seqNum, value) == tail;
    }
  }

  /** Wrapping a payload in `d`...`e` and decoding it gives back exactly the
      salt (when one was given), the sequence number and the value, each
      under its key, with salt and value as byte strings. */
  lemma SignableDecodes(value: Arg, opts: SignableOptions)
    requires Signable(value, opts).Success?
    ensures Decode([DictStart] + Signable(value, opts).value + [End])
         == Some(Fields(SaltBytes(opts.salt), SeqNumOrDefault(opts.seqNum), value.bytes))
    ensures var d := Fields(SaltBytes(opts.salt), SeqNumOrDefault(opts.seqNum), value.bytes);
      && Lookup(d, SaltKey) == (if opts.salt.Some? then Some(ByteString(opts.salt.value.bytes)) else None)
      && Lookup(d, SeqKey) == Some(Integer(SeqNumOrDefault(opts.seqNum)))
      && Lookup(d, ValueKey) == Some(ByteString(value.bytes))
  {
    var salt, seqNum := SaltBytes(opts.salt), SeqNumOrDefault(opts.seqNum);
    PayloadIsStrippedDict(salt, seqNum, value.bytes);
    DecodeEncode(Fields(salt, seqNum, value.bytes));
    var d := Fields(salt, seqNum, value.bytes);
    if salt.None? {
      assert d[0].key == SeqKey && d[1].key == ValueKey;
      assert Lookup(d, SaltKey) == Lookup(d[1..], SaltKey) == Lookup(d[1..][1..], SaltKey);
    } else {
      assert Lookup(d, SeqKey) == Lookup(d[1..], SeqKey);
      assert Lookup(d, ValueKey) == Lookup(d[1..], ValueKey) == Lookup(d[1..][1..], ValueKey);
    }
  }

  /** Distinct `(salt, seq, value)` triples give distinct payloads. */
  lemma PayloadInjective(salt: Option<Bytes>, seqNum: int, value: Bytes,
                         salt': Option<Bytes>, seqNum': int, value': Bytes)
    requires Payload(salt, seqNum, value) == Payload(salt', seqNum', value')
    ensures salt == salt' && seqNum == seqNum' && value == value'
  {
    PayloadIsStrippedDict(salt, seqNum, value);
    PayloadIsStrippedDict(salt', seqNum', value');
    EncodeDictInjective(Fields(salt, seqNum, value), Fields(salt', seqNum', value'));
    var d, d' := Fields(salt, seqNum, value), Fields(salt', seqNum', value');
    if salt.Some? && salt'.Some? {
      assert d[0] == d'[0] && d[1] == d'[1] && d[2] == d'[2];
    } else if salt.None? && salt'.None? {
      assert d[0] == d'[0] && d[1] == d'[1];
    }
  }

  /** `3:seqi0e1:v`: the key and value tokens of `seq = 0` followed by the
      key token of `v`. */
  const DefaultHeader: Bytes := [51, 58, 115, 101, 113, 105, 48, 101, 49, 58, 118]

  lemma DefaultHeaderTokens()
    ensures EncodeString(SeqKey) + EncodeInteger(0) + EncodeString(ValueKey) == DefaultHeader
  {
    assert EncodeString(SeqKey) == [51, 58, 115, 101, 113] by { assert Decimal(3) == [51]; }
    assert EncodeInteger(0) == [105, 48, 101] by { assert Decimal(0) == [48]; }
    assert EncodeString(ValueKey) == [49, 58, 118] by { assert Decimal(1) == [49]; }
  }

  /** With no options, the payload is `3:seqi0e1:v<len>:<value>`: `seq`
      defaults to 0 and no salt field is written. */
  lemma SignableDefaults(value: Bytes)
    requires |value| <= MaxValueSize
    ensures Signable(Buffer(value), NoOptions) == Signable(Buffer(value), SignableOptions(Some(0), None))
    ensures Signable(Buffer(value), NoOptions) == Success(DefaultHeader + EncodeString(value))
  {
    DefaultHeaderTokens();
    var a := EncodeString(SeqKey);
    assert [] + a == a;
    assert Payload(None, 0, value) == a + EncodeInteger(0) + EncodeString(ValueKey) + EncodeString(value);
  }

  // ---------------------------------------------------------------------
  // Signing

  /** `sign(value, {seq, salt, keypair})`: signs, with the keypair's secret
      key, exactly the bytes `Signable` builds from the same value, `seq` and
      salt.  It rejects missing options, a salt that is not a buffer or is not
      16 to 64 bytes long, a value that `Signable` rejects, a missing keypair,
      and a secret key that is missing or not a buffer. */
  function Sign(p: Primitives, value: Arg, options: Option<SignOptions>): (r: Result<Bytes, Error>)
    ensures r.Success? <==>
      && options.Some?
      && (options.value.salt.Some? ==>
            options.value.salt.value.Buffer? && MinSaltSize <= |options.value.salt.value.bytes| <= MaxSaltSize)
      && value.Buffer? && |value.bytes| <= MaxValueSize
      && options.value.keypair.Some?
      && options.value.keypair.value.secretKey.Some?
      && options.value.keypair.value.secretKey.value.Buffer?
    ensures r.Success? ==>
      && Signable(value, PayloadOptions(options.value)).Success?
      && r.value == p.signDetached(Signable(value, PayloadOptions(options.value)).value,
                                   options.value.keypair.value.secretKey.value.bytes)
    ensures r.Failure? ==>
      match r.error
      case OptionsRequired => options.None?
      case SaltNotBuffer => options.Some? && options.value.salt == Some(NotBuffer)
      case SaltSizeOutOfRange =>
        && options.Some? && options.value.salt.Some? && options.value.salt.value.Buffer?
        && !(MinSaltSize <= |options.value.salt.value.bytes| <= MaxSaltSize)
      case ValueNotBuffer => value.NotBuffer?
      case ValueTooLarge => value.Buffer? && |value.bytes| > MaxValueSize
      case KeypairRequired => options.Some? && options.value.keypair.None?
      case SecretKeyRequired =>
        && options.Some? && options.value.keypair.Some?
        && (options.value.keypair.value.secretKey.None? || options.value.keypair.value.secretKey.value.NotBuffer?)
      case _ => false
  {
    if options.None? then Failure(OptionsRequired)
    else
      var o := options.value;
      if o.salt == Some(NotBuffer) then Failure(SaltNotBuffer)
      else if o.salt.Some? && !(MinSaltSize <= |o.salt.value.bytes| <= MaxSaltSize) then Failure(SaltSizeOutOfRange)
      else
        match Signable(value, PayloadOptions(o))
        case Failure(e) => Failure(e)
        case Success(msg) =>
          if o.keypair.None? then Failure(KeypairRequired)
          else if o.keypair.value.secretKey.None? || o.keypair.value.secretKey.value.NotBuffer? then
            Failure(SecretKeyRequired)
          else Success(p.signDetached(msg, o.keypair.value.secretKey.value.bytes))
  }

  /** `cryptoSign(msg, keypair)`: signs `msg` as it is, with no size bound;
      rejects a message that is not a buffer, a missing keypair, and a secret
      key that is missing or not a buffer. */
  function CryptoSign(p: Primitives, msg: Arg, keypair: Option<KeyPairArg>): (r: Result<Bytes, Error>)
    ensures r.Success? <==>
      msg.Buffer? && keypair.Some? && keypair.value.secretKey.Some? && keypair.value.secretKey.value.Buffer?
    ensures r.Success? ==> r.value == p.signDetached(msg.bytes, keypair.value.secretKey.value.bytes)
    ensures r.Success? ==> Sound(p) ==> |r.value| == 64
    ensures r.Failure? ==>
      match r.error
      case MsgNotBuffer => msg.NotBuffer?
      case KeypairRequired => keypair.None?
      case SecretKeyRequired =>
        keypair.Some? && (keypair.value.secretKey.None? || keypair.value.secretKey.value.NotBuffer?)
      case _ => false
  {
    if msg.NotBuffer? then Failure(MsgNotBuffer)
    else if keypair.None? then Failure(KeypairRequired)
    else if keypair.value.secretKey.None? || keypair.value.secretKey.value.NotBuffer? then Failure(SecretKeyRequired)
    else Success(p.signDetached(msg.bytes, keypair.value.secretKey.value.bytes))
  }

  /** `sign` is `cryptoSign` applied to the `signable` payload of the same
      value and options. */
  lemma SignIsCryptoSignOfSignable(p: Primitives, value: Arg, o: SignOptions)
    requires Sign(p, value, Some(o)).Success?
    ensures Signable(value, PayloadOptions(o)).Success?
    ensures Sign(p, value, Some(o)) == CryptoSign(p, Buffer(Signable(value, PayloadOptions(o)).value), o.keypair)
  {
  }

  /** `sign` accepts only salts `signable` accepts, and only those that are
      at least 16 bytes long. */
  lemma SignSaltRangeStricter(p: Primitives, value: Arg, o: SignOptions)
    requires o.keypair.Some? && o.keypair.value.secretKey.Some? && o.keypair.value.secretKey.value.Buffer?
    requires value.Buffer? && |value.bytes| <= MaxValueSize
    requires o.salt.Some? && o.salt.value.Buffer?
    ensures Sign(p, value, Some(o)).Success? <==>
      Signable(value, PayloadOptions(o)).Success? && |o.salt.value.bytes| >= MinSaltSize
  {
  }

  /** A keypair object as `keypair()` returns it. */
  ghost predicate IsKeyPairOf(p: Primitives, k: KeyPairArg, pk: Bytes, sk: Bytes) {
    k == KeyPairArg(Some(Buffer(pk)), Some(Buffer(sk))) && pk == p.publicKeyOf(sk)
  }

  /** A signature from `sign` verifies against the `signable` payload of the
      same value and options and the keypair's public key. */
  lemma SignVerifies(p: Primitives, value: Arg, o: SignOptions, pk: Bytes, sk: Bytes)
    requires Sound(p)
    requires o.keypair.Some? && IsKeyPairOf(p, o.keypair.value, pk, sk)
    requires Sign(p, value, Some(o)).Success?
    ensures Signable(value, PayloadOptions(o)).Success?
    ensures |Sign(p, value, Some(o)).value| == 64
    ensures p.verifyDetached(Sign(p, value, Some(o)).value, Signable(value, PayloadOptions(o)).value, pk)
  {
  }

  /** A signature from `cryptoSign` over any buffer verifies against that
      buffer and the keypair's public key; the tests apply it to `signable`
      payloads. */
  lemma CryptoSignVerifies(p: Primitives, m: Bytes, k: KeyPairArg, pk: Bytes, sk: Bytes)
    requires Sound(p)
    requires IsKeyPairOf(p, k, pk, sk)
    ensures CryptoSign(p, Buffer(m), Some(k)).Success?
    ensures p.verifyDetached(CryptoSign(p, Buffer(m), Some(k)).value, m, pk)
  {
  }

  // ---------------------------------------------------------------------
  // Salt generation

  /** The forms of the `salt` call: `salt()`, `salt(n)`, and `salt(seed)` or
      `salt(seed, n)` with the seed's UTF-8 bytes. */
  datatype SaltRequest = NoArgument | Size(n: int) | Seed(seed: Bytes, size: Option<int>)

  /** `salt(...)`: `n` random bytes, or the `n`-byte generic hash of the
      seed, where `n` defaults to 32 and must lie between 16 and 64. */
  function Salt(p: Primitives, req: SaltRequest): (r: Result<Bytes, Error>)
    ensures r.Success? <==>
      match req
      case NoArgument => true
      case Size(n) => MinSaltSize <= n <= MaxSaltSize
      case Seed(_, size) => size.None? || MinSaltSize <= size.value <= MaxSaltSize
    ensures r.Failure? ==> r.error == SizeOutOfRange
    ensures r.Success? && Sound(p) ==>
      |r.value| == match req
                   case Size(n) => n
                   case Seed(_, Some(n)) => n
                   case _ => DefaultSaltSize
    ensures r.Success? && req.Seed? ==>
      r.value == p.genericHash(req.seed, SizeOrDefault(req.size))
  {
    match req
    case NoArgument => Success(p.randomBytes(DefaultSaltSize))
    case Size(n) =>
      if MinSaltSize <= n <= MaxSaltSize then Success(p.randomBytes(n)) else Failure(SizeOutOfRange)
    case Seed(seed, size) =>
      var n := SizeOrDefault(size);
      if MinSaltSize <= n <= MaxSaltSize then Success(p.genericHash(seed, n)) else Failure(SizeOutOfRange)
  }

  function SizeOrDefault(size: Option<int>): int {
    if size.Some? then size.value else DefaultSaltSize
  }
}
