/** Which credentials a pull uses, as the bytes that are hashed to identify it. */
module AuthId {
  import opened Text
  import opened Common

  const LEN_MODULUS: nat := 0x1_0000_0000_0000_0000

  datatype Auth = Anonymous | Basic(user: seq<Byte>, password: seq<Byte>) | Bearer(token: seq<Byte>)

  const ANONYMOUS: seq<Byte> := [97, 110, 111, 110, 121, 109, 111, 117, 115]
  const BASIC: seq<Byte> := [98, 97, 115, 105, 99]
  const BEARER: seq<Byte> := [98, 101, 97, 114, 101, 114]

  function Pow256(k: nat): nat {
    if k == 0 then 1 else 256 * Pow256(k - 1)
  }

  /** `n` in `k` bytes, least significant first. */
  function LittleEndian(n: nat, k: nat): (s: seq<Byte>)
    ensures |s| == k
  {
    if k == 0 then [] else [n % 256] + LittleEndian(n / 256, k - 1)
  }

  function FromLittleEndian(s: seq<Byte>): nat {
    if s == [] then 0 else s[0] + 256 * FromLittleEndian(s[1..])
  }

  lemma {:induction false} LittleEndianRoundTrip(n: nat, k: nat)
    requires n < Pow256(k)
    ensures FromLittleEndian(LittleEndian(n, k)) == n
  {
    if k > 0 {
      LittleEndianRoundTrip(n / 256, k - 1);
      assert LittleEndian(n, k)[1..] == LittleEndian(n / 256, k - 1);
    }
  }

  /** A length prefix and the bytes; the length is cast to 64 bits. */
  function Field(bytes: seq<Byte>): seq<Byte> {
    LittleEndian(|bytes| % LEN_MODULUS, 8) + bytes
  }

  /** The bytes fed to the hasher. */
  function Preimage(a: Auth): seq<Byte> {
    match a
    case Anonymous => Field(ANONYMOUS)
    case Basic(user, password) => Field(BASIC) + Field(user) + Field(password)
    case Bearer(token) => Field(BEARER) + Field(token)
  }

  // ------------------------------------------------------------- decoding

  /** Take one field off the front. */
  function TakeField(s: seq<Byte>): Option<(seq<Byte>, seq<Byte>)> {
    if |s| < 8 then None
    else
      var n := FromLittleEndian(s[..8]);
      if |s| < 8 + n then None else Some((s[8..8 + n], s[8 + n..]))
  }

  function Decode(s: seq<Byte>): Option<Auth> {
    var kind := TakeField(s);
    if kind.None? then None
    else if kind.value.0 == ANONYMOUS then if kind.value.1 == [] then Some(Anonymous) else None
    else
      var first := TakeField(kind.value.1);
      if first.None? then None
      else if kind.value.0 == BEARER then if first.value.1 == [] then Some(Bearer(first.value.0)) else None
      else if kind.value.0 == BASIC then
        var second := TakeField(first.value.1);
        if second.Some? && second.value.1 == [] then Some(Basic(first.value.0, second.value.0)) else None
      else None
  }

  /** Every field is shorter than 2^64 bytes, as any in memory is. */
  predicate Sized(a: Auth) {
    match a
    case Anonymous => true
    case Basic(user, password) => |user| < LEN_MODULUS && |password| < LEN_MODULUS
    case Bearer(token) => |token| < LEN_MODULUS
  }

  lemma EightBytes()
    ensures Pow256(8) == LEN_MODULUS
  {
    assert Pow256(4) == 0x1_0000_0000;
    assert Pow256(8) == 256 * Pow256(7) == 256 * 256 * Pow256(6) == 256 * 256 * 256 * Pow256(5);
  }

  lemma TakesPrefixed(prefix: seq<Byte>, bytes: seq<Byte>, rest: seq<Byte>)
    requires |prefix| == 8 && FromLittleEndian(prefix) == |bytes|
    ensures TakeField(prefix + bytes + rest) == Some((bytes, rest))
  {
    var s := prefix + bytes + rest;
    assert s[..8] == prefix;
    assert s[8..8 + |bytes|] == bytes && s[8 + |bytes|..] == rest;
  }

  lemma TakesFieldBack(bytes: seq<Byte>, rest: seq<Byte>)
    requires |bytes| < LEN_MODULUS
    ensures TakeField(Field(bytes) + rest) == Some((bytes, rest))
  {
    LengthRoundTrip(|bytes|);
    TakesPrefixed(LittleEndian(|bytes| % LEN_MODULUS, 8), bytes, rest);
  }

  lemma LengthRoundTrip(n: nat)
    requires n < LEN_MODULUS
    ensures FromLittleEndian(LittleEndian(n % LEN_MODULUS, 8)) == n
  {
    SmallLength(n);
    assert n < Pow256(8) by { EightBytes(); }
    LittleEndianRoundTrip(n, 8);
  }

  lemma SmallLength(n: nat)
    requires n < LEN_MODULUS
    ensures n % LEN_MODULUS == n
  {
  }

  lemma DecodesBasic(s: seq<Byte>, r: seq<Byte>, q: seq<Byte>, user: seq<Byte>, password: seq<Byte>)
    requires TakeField(s) == Some((BASIC, r)) && TakeField(r) == Some((user, q)) && TakeField(q) == Some((password, []))
    ensures Decode(s) == Some(Basic(user, password))
  {
    assert |BASIC| == 5 && |BEARER| == 6 && |ANONYMOUS| == 9;
  }

  lemma DecodesBearer(s: seq<Byte>, r: seq<Byte>, token: seq<Byte>)
    requires TakeField(s) == Some((BEARER, r)) && TakeField(r) == Some((token, []))
    ensures Decode(s) == Some(Bearer(token))
  {
    assert |BEARER| == 6 && |ANONYMOUS| == 9;
  }

  lemma TakesLastFieldBack(bytes: seq<Byte>)
    requires |bytes| < LEN_MODULUS
    ensures TakeField(Field(bytes)) == Some((bytes, []))
  {
    TakesFieldBack(bytes, []);
    assert Field(bytes) + [] == Field(bytes);
  }

  lemma DecodesBack(a: Auth)
    requires Sized(a)
    ensures Decode(Preimage(a)) == Some(a)
  {
    match a
    case Anonymous => TakesLastFieldBack(ANONYMOUS);
    case Basic(user, password) =>
      var q := Field(password);
      var r := Field(user) + q;
      assert Preimage(a) == Field(BASIC) + r;
      TakesFieldBack(BASIC, r);
      TakesFieldBack(user, q);
      TakesLastFieldBack(password);
      DecodesBasic(Preimage(a), r, q, user, password);
    case Bearer(token) =>
      TakesFieldBack(BEARER, Field(token));
      TakesLastFieldBack(token);
      DecodesBearer(Preimage(a), Field(token), token);
  }

  /** The hasher is fed field by field. */
  method FeedHasher(a: Auth) returns (fed: seq<Byte>)
    ensures fed == Preimage(a)
  {
    fed := [];
    match a
    case Anonymous => fed := fed + Field(ANONYMOUS);
    case Basic(user, password) =>
      fed := fed + Field(BASIC);
      fed := fed + Field(user);
      fed := fed + Field(password);
    case Bearer(token) =>
      fed := fed + Field(BEARER);
      fed := fed + Field(token);
  }

  /** No two different credentials feed the hasher the same bytes. */
  lemma PreimageIsInjective(a: Auth, b: Auth)
    requires Sized(a) && Sized(b) && Preimage(a) == Preimage(b)
    ensures a == b
  {
    DecodesBack(a);
    DecodesBack(b);
  }
}
