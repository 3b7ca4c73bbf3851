# bitsign: signable payloads for mutable DHT items

This project models bitsign in Dafny. bitsign is a small stateless library that builds and signs the payload of a mutable DHT item, following the "Mutable items" part of BEP 44. It has four operations:

- `signable(value, {seq, salt})` returns the inner bytes of the bencoded dictionary `{salt?, seq, v}`, without the outer `d` and `e`.
- `sign(value, {seq, salt, keypair})` signs those bytes with Ed25519.
- `cryptoSign(msg, keypair)` signs raw bytes.
- `salt(...)` makes a random salt, or one derived from a string seed.

The source lines cited below are in the library's test suite, `test/index.test.js`. The model states the behaviour those tests pin down.

The model has three modules:

- `Wrappers` (Wrappers.dfy) has `Option` and `Result`. `Result` stands for a returned value or a thrown error.
- `Bencode` (Bencode.dfy) has the part of BEP 3 bencoding that a payload uses: decimal numerals, byte-string tokens `<len>:<bytes>`, integer tokens `i<n>e`, and flat dictionaries. The encoder is the reference for `bencode.encode` on lines 43, 47 and 51 of the tests. The decoder stands in for `bencode.decode` on line 59. The module proves that decoding an encoded dictionary gives its entries back.
- `Bitsign` (Bitsign.dfy) has the library's operations, over dynamically typed arguments:
  - `Arg` is either `Buffer(bytes)` or `NotBuffer`.
  - Omitted options and fields are `Option`s.
  - Errors are one `Error` kind per check.
  - The Ed25519 sign and verify functions, the generic hash and the entropy source are fields of a `Primitives` value that is passed in as a parameter. `Sound(p)` lists what the proofs rely on from them: output lengths, and that a signature verifies under the matching public key.

## Model

| member | source | states |
|---|---|---|
| `Bitsign.Signable` | test/index.test.js:38-91 | Succeeds exactly when the value is a buffer of at most 1000 bytes and any salt given is a buffer of at most 64 bytes. There is no lower bound on the salt. On success it returns the payload for (salt, seq defaulting to 0, value). A reported error always names a check that the input really fails. |
| `Bitsign.FieldsSorted` | test/index.test.js:45-52 | The fields of the dictionary `{salt?, seq, v}` come in strictly increasing key order (`salt` < `seq` < `v`). This is the order bencode writes a dictionary in. |
| `Bitsign.PayloadIsStrippedDict` | test/index.test.js:41-52 | The payload equals the bencoding of the dictionary `{salt?, seq, v}` with its first and last byte removed. `seq` is an integer token and `salt` and `v` are byte-string tokens. |
| `Bitsign.SignableDefaults` | test/index.test.js:41-44 | With no options, `signable(value)` equals `signable(value, {seq: 0})`, which is `3:seqi0e1:v` followed by the value's byte-string token. |
| `Bitsign.DefaultHeaderTokens` | test/index.test.js:41-44 | The tokens of key `seq`, integer 0 and key `v` together spell `3:seqi0e1:v`. |
| `Bitsign.SignableDecodes` | test/index.test.js:55-67 | Decoding `d` + payload + `e` gives exactly the entries salt (when given), seq and v. Salt and v come back as byte strings and seq as an integer. Looking up each key gives the supplied value, and `salt` is absent when no salt was given. |
| `Bitsign.PayloadInjective` | test/index.test.js:41-52 | Two equal payloads have equal salt, seq and value, so distinct inputs never share a payload. |
| `Bitsign.Sign` | test/index.test.js:124-175 | Succeeds exactly when all of these hold: options are present; any salt is a buffer of 16 to 64 bytes; the value is a buffer of at most 1000 bytes; a keypair is present; its secretKey is present and is a buffer. On success the result is the Ed25519 signature, with the secret key, of exactly the `Signable` output for the same value, seq and salt. A reported error always names a check that the input really fails. |
| `Bitsign.SignSaltRangeStricter` | test/index.test.js:128-137 | With an acceptable value and secret key, a buffer salt passes `sign` exactly when it passes `signable` and is at least 16 bytes long. |
| `Bitsign.SignIsCryptoSignOfSignable` | test/index.test.js:93-122 | A successful `sign(value, opts)` equals `cryptoSign(signable(value, opts), opts.keypair)`. |
| `Bitsign.SignVerifies` | test/index.test.js:93-122 | Assume sound primitives and a keypair as `keypair()` returns it. Then a signature from `sign` is 64 bytes long and verifies against `signable(value, opts)` and the public key. |
| `Bitsign.CryptoSign` | test/index.test.js:177-198 | Succeeds exactly when `msg` is a buffer (of any length), the keypair is present, and its secretKey is present and is a buffer. On success the result is the Ed25519 signature of exactly the bytes of `msg` with that secret key, and it is 64 bytes under sound primitives. A reported error always names a check that the input really fails. |
| `Bitsign.CryptoSignVerifies` | test/index.test.js:200-229 | Assume sound primitives and a keypair as `keypair()` returns it. Then `cryptoSign(m, keypair)` succeeds for every buffer `m` and verifies against `m` and the public key. The tests use it with `m = signable(value, opts)`. |
| `Bitsign.Salt` | test/index.test.js:17-36 | `salt()`, `salt(n)`, `salt(seed)` and `salt(seed, n)` succeed exactly when the size (32 by default) lies in [16, 64]. Otherwise they fail with a range error. The output has the requested length. With a seed, the output is the generic hash of the seed's bytes at that size. |
| `Bencode.Decimal` | test/index.test.js:45-48 | The numeral of a sequence number or length is nonempty and all digits. It has no leading zero unless it is `0`, and it is one digit exactly for numbers below 10. |
| `Bencode.DecimalValue` | test/index.test.js:45-48 | Reading a numeral gives back the number it was written from. |
| `Bencode.LeadingDigits` | test/index.test.js:59-61 | Gives the longest all-digit prefix of the input: the following byte, if any, is not a digit. |
| `Bencode.LeadingDigitsOf` | test/index.test.js:59-61 | The digit run read at the front of a numeral followed by a non-digit is exactly that numeral. |
| `Bencode.Lookup` | test/index.test.js:62-66 | A field lookup in a decoded dictionary finds a value exactly when some entry has that key. The value found is the item of the first entry with that key. |
| `Bencode.ParseStringEncode` | test/index.test.js:59-64 | A byte-string token reads back as its bytes and leaves the rest of the input untouched. |
| `Bencode.ParseIntegerEncode` | test/index.test.js:59-66 | An integer token, negative ones included, reads back as its integer and leaves the rest untouched. |
| `Bencode.ParseItemEncode` | test/index.test.js:59-66 | An encoded integer or byte string reads back as the same item. |
| `Bencode.EncodeEntriesCons` | test/index.test.js:43-51 | Encoding entries writes the first entry's key and item in front of the encoding of the rest. |
| `Bencode.ParseEntriesEncode` | test/index.test.js:59-61 | The encoded entries followed by `e` read back as the same entries, in order, and leave the rest untouched. |
| `Bencode.DecodeEncode` | test/index.test.js:59-61 | Decoding the encoding of a flat dictionary gives back its entries. |
| `Bencode.EncodeDictInjective` | test/index.test.js:59-61 | Dictionaries with the same encoding have the same entries. |

## Left out

- Key generation (`keypair()`) is left out because it depends on operating-system entropy. A keypair appears only as the argument `KeyPairArg` and through `IsKeyPairOf`.
- Ed25519 signing and verification, the generic hash and the entropy source are foreign primitives. They are parameters, and the proofs rely only on what `Sound` states: 64-byte signatures, hash output of the requested length, random output of the requested length, and that a signature verifies under the matching public key.
- Salt: the random forms read `randomBytes` from the `Primitives` value given to the call. The model therefore does not capture that two calls of `salt()` return different bytes.
- Salt: a string seed is given as its UTF-8 bytes; UTF-8 encoding itself is not modelled.
- Signable, Sign, CryptoSign: when an input fails several checks, the contracts do not say which error is reported. The tests throw without checking the message, and several of them fail more than one check at once: lines 125, 130, 134, 145, 158, 167, 172 and 183. Lines 130 and 134 pass a 15- or 65-byte salt with no keypair, so the keypair check alone would make them throw. The tests therefore do not isolate `sign`'s lower salt bound of 16. The model takes that bound from the test's label on line 128.
- Error message texts are not part of the model. Each `Error` constructor carries the text from the test labels as a comment.
- `seq` is modelled as an unbounded integer. JavaScript numbers that are not integers are not modelled, and neither is the way bencode rounds them when encoding.
- The decoder covers flat dictionaries of integers and byte strings only; lists and nested dictionaries are rejected. It requires the whole input to be read. It does not check key order or reject leading zeros.
- The library does not check the length of the secret key. The signing primitive's own length check is not modelled.
- The library ignores extra option fields. An example is the `keypair` passed to `signable` on lines 82 and 88.
- The test mutates a keypair object on lines 165 and 170. That is test setup. The same holds for the tap harness.
- Lines 190 and 195 pass `{ keypair }`, an object that wraps the keypair, as the keypair itself. These cases are modelled as a keypair with no `secretKey`, which is what that object is.
- Determinism of `signable` needs no lemma: every operation here is a function of its arguments.
