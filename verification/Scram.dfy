/**
 * SCRAM-SHA-256 (internal/auth/scram.go, internal/connection/auth.go): the client's side of section 3 of
 * RFC 5802, an honest server for it to talk to, and the key derivation of section 5.2 of RFC 8018. Hash, HMAC
 * and base64 are parameters with the few laws that are needed.
 */
module Scram {
  import opened Wrappers
  import opened Words
  import opened Decimal
  import Wire

  const COMMA: byte := 0x2C
  const EQUALS: byte := 0x3D

  datatype Crypto = Crypto(hmac: (Bytes, Bytes) -> Bytes, hash: Bytes -> Bytes,
                           encode: Bytes -> Bytes, decode: Bytes -> Option<Bytes>)

  const HASH_SIZE: nat := 32

  /** HMAC and hash give 32 bytes, and base64 can be undone and uses no comma. */
  ghost predicate Lawful(c: Crypto) {
    && (forall k, d :: |c.hmac(k, d)| == HASH_SIZE)
    && (forall d :: |c.hash(d)| == HASH_SIZE)
    && (forall b :: c.decode(c.encode(b)) == Some(b))
    && (forall b :: COMMA !in c.encode(b))
  }

  // ---------- exclusive or ----------

  function XorNat(x: nat, y: nat): nat {
    if x == 0 && y == 0 then 0 else (x + y) % 2 + 2 * XorNat(x / 2, y / 2)
  }

  lemma Halves(x: nat, y: nat, z: nat)
    ensures ((x + y) % 2 + 2 * z) / 2 == z && ((x + y) % 2 + 2 * z + y) % 2 == x % 2
    ensures x % 2 + 2 * (x / 2) == x
  {
  }

  lemma XorStep(w: nat, y: nat, odd: nat, half: nat)
    requires (w + y) % 2 == odd && XorNat(w / 2, y / 2) == half
    ensures XorNat(w, y) == odd + 2 * half
  {
  }

  lemma {:induction false} XorUndone(x: nat, y: nat)
    ensures XorNat(XorNat(x, y), y) == x
  {
    if x != 0 || y != 0 {
      var z := XorNat(x / 2, y / 2);
      Halves(x, y, z);
      XorUndone(x / 2, y / 2);
      XorStep((x + y) % 2 + 2 * z, y, x % 2, x / 2);
    }
  }

  /** Bit k of a number. */
  function Bit(x: nat, k: nat): nat {
    if k == 0 then x % 2 else Bit(x / 2, k - 1)
  }

  lemma Parity(x: nat, y: nat, z: nat)
    ensures ((x + y) % 2 + 2 * z) % 2 == (x + y) % 2 && ((x + y) % 2 + 2 * z) / 2 == z
    ensures (x + y) % 2 == 1 <==> x % 2 != y % 2
  {
  }

  /** A bit of the exclusive or is set exactly if it is set in one of the two numbers. */
  lemma {:induction false} XorBits(x: nat, y: nat, k: nat)
    ensures Bit(XorNat(x, y), k) == 1 <==> Bit(x, k) != Bit(y, k)
  {
    if x == 0 && y == 0 {
      NoBits(k);
    } else {
      Parity(x, y, XorNat(x / 2, y / 2));
      if k > 0 {
        XorBits(x / 2, y / 2, k - 1);
      }
    }
  }

  lemma {:induction false} NoBits(k: nat)
    ensures Bit(0, k) == 0
  {
    if k > 0 {
      NoBits(k - 1);
    }
  }

  function Pow2(n: nat): nat {
    if n == 0 then 1 else 2 * Pow2(n - 1)
  }

  lemma {:induction false} XorBound(x: nat, y: nat, n: nat)
    requires x < Pow2(n) && y < Pow2(n)
    ensures XorNat(x, y) < Pow2(n)
  {
    if x != 0 || y != 0 {
      XorBound(x / 2, y / 2, n - 1);
    }
  }

  lemma ByteBound(x: byte, y: byte)
    ensures XorNat(x, y) < 0x100
  {
    assert Pow2(4) == 16 && Pow2(8) == 16 * Pow2(4);
    XorBound(x, y, 8);
  }

  function XorByte(x: byte, y: byte): byte {
    ByteBound(x, y);
    XorNat(x, y)
  }

  /** xorBytes: as long as its first argument. */
  function Xor(a: Bytes, b: Bytes): (r: Bytes)
    requires |a| <= |b|
    ensures |r| == |a|
  {
    seq(|a|, i requires 0 <= i < |a| => XorByte(a[i], b[i]))
  }

  lemma XorTwice(a: Bytes, b: Bytes)
    requires |a| == |b|
    ensures Xor(Xor(a, b), b) == a
  {
    forall i | 0 <= i < |a|
      ensures Xor(Xor(a, b), b)[i] == a[i]
    {
      XorUndone(a[i], b[i]);
    }
  }

  // ---------- the key derivation of section 5.2 of RFC 8018 ----------

  /** U_j for the block number i: U_1 = PRF(P, S || INT(i)), U_j = PRF(P, U_{j-1}). */
  function U(c: Crypto, password: Bytes, salt: Bytes, i: nat, j: nat): Bytes
    requires j >= 1
  {
    if j == 1 then c.hmac(password, salt + Wire.PrintFixed(i, 4)) else c.hmac(password, U(c, password, salt, i, j - 1))
  }

  /** F: the exclusive or of U_1 to U_n. */
  function F(c: Crypto, password: Bytes, salt: Bytes, i: nat, n: nat): (r: Bytes)
    requires Lawful(c) && n >= 1
    ensures |r| == HASH_SIZE
  {
    if n == 1 then U(c, password, salt, i, 1)
    else
      assert |U(c, password, salt, i, n)| == HASH_SIZE;
      Xor(F(c, password, salt, i, n - 1), U(c, password, salt, i, n))
  }

  /** T_1 || ... || T_blocks. */
  function Blocks(c: Crypto, password: Bytes, salt: Bytes, n: nat, blocks: nat): (r: Bytes)
    requires Lawful(c) && n >= 1
    ensures |r| == blocks * HASH_SIZE
  {
    if blocks == 0 then [] else Blocks(c, password, salt, n, blocks - 1) + F(c, password, salt, blocks, n)
  }

  function BlockCount(keyLen: nat): nat {
    (keyLen + HASH_SIZE - 1) / HASH_SIZE
  }

  /** The derived key: its first keyLen bytes. */
  function Pbkdf2(c: Crypto, password: Bytes, salt: Bytes, n: nat, keyLen: nat): (dk: Bytes)
    requires Lawful(c) && n >= 1
    ensures |dk| == keyLen
  {
    Blocks(c, password, salt, n, BlockCount(keyLen))[..keyLen]
  }

  /** A count below one is worked as one. */
  function AtLeastOne(iterations: int): nat {
    if iterations < 1 then 1 else iterations
  }

  /** HMAC applied j times. */
  function Iterated(c: Crypto, password: Bytes, u: Bytes, j: nat): Bytes
    decreases j
  {
    if j == 0 then u else Iterated(c, password, c.hmac(password, u), j - 1)
  }

  lemma {:induction false} IteratedOnce(c: Crypto, password: Bytes, u: Bytes, j: nat)
    ensures c.hmac(password, Iterated(c, password, u, j)) == Iterated(c, password, u, j + 1)
    decreases j
  {
    if j > 0 {
      IteratedOnce(c, password, c.hmac(password, u), j - 1);
    }
  }

  lemma {:induction false} ChainIsIterated(c: Crypto, password: Bytes, salt: Bytes, i: nat, j: nat)
    requires j >= 1
    ensures U(c, password, salt, i, j) ==
            Iterated(c, password, c.hmac(password, salt + Wire.PrintFixed(i, 4)), j - 1)
  {
    if j > 1 {
      ChainIsIterated(c, password, salt, i, j - 1);
      IteratedOnce(c, password, c.hmac(password, salt + Wire.PrintFixed(i, 4)), j - 2);
    }
  }

  lemma OneBlock(c: Crypto, password: Bytes, salt: Bytes, n: nat)
    requires Lawful(c) && n >= 1
    ensures Pbkdf2(c, password, salt, n, HASH_SIZE) == F(c, password, salt, 1, n)
    ensures Wire.PrintFixed(1, 4) == [0, 0, 0, 1]
  {
    assert BlockCount(HASH_SIZE) == 1;
    assert Blocks(c, password, salt, n, 0) == [];
  }

  /**
   * The salted password: with one iteration HMAC over salt and block number, and each iteration more adds, by
   * exclusive or, HMAC applied once more.
   */
  lemma SaltedPassword(c: Crypto, password: Bytes, salt: Bytes, n: nat)
    requires Lawful(c) && n >= 1
    ensures var first := c.hmac(password, salt + [0, 0, 0, 1]);
            && Pbkdf2(c, password, salt, 1, HASH_SIZE) == first
            && (forall count :: count < 1 ==> Salted(c, password, salt, count) == first)
            && Salted(c, password, salt, n) == Pbkdf2(c, password, salt, n, HASH_SIZE)
            && |Iterated(c, password, first, n)| == HASH_SIZE
            && Pbkdf2(c, password, salt, n + 1, HASH_SIZE) ==
               Xor(Pbkdf2(c, password, salt, n, HASH_SIZE), Iterated(c, password, first, n))
  {
    OneBlock(c, password, salt, 1);
    OneBlock(c, password, salt, n);
    OneBlock(c, password, salt, n + 1);
    ChainIsIterated(c, password, salt, 1, n + 1);
  }

  method Pbkdf2Block(c: Crypto, password: Bytes, salt: Bytes, iterations: int, blockIndex: nat) returns (result: Bytes)
    requires Lawful(c)
    ensures result == F(c, password, salt, blockIndex, AtLeastOne(iterations))
  {
    var u := c.hmac(password, salt + Wire.PrintFixed(blockIndex, 4));
    var buffer := new byte[|u|](i requires 0 <= i < |u| => u[i]);
    assert buffer[..] == u;
    var i := 1;
    while i < iterations
      invariant 1 <= i <= AtLeastOne(iterations)
      invariant u == U(c, password, salt, blockIndex, i)
      invariant buffer.Length == HASH_SIZE && buffer[..] == F(c, password, salt, blockIndex, i)
    {
      u := c.hmac(password, u);
      XorInto(buffer, u);
      i := i + 1;
    }
    result := buffer[..];
  }

  method XorInto(result: array<byte>, u: Bytes)
    requires result.Length <= |u|
    modifies result
    ensures result[..] == Xor(old(result[..]), u)
  {
    for j := 0 to result.Length
      invariant forall k :: 0 <= k < result.Length ==>
                  result[k] == if k < j then XorByte(old(result[..])[k], u[k]) else old(result[..])[k]
    {
      result[j] := XorByte(result[j], u[j]);
    }
  }

  method Pbkdf2SHA256(c: Crypto, password: Bytes, salt: Bytes, iterations: int, keyLen: nat) returns (dk: Bytes)
    requires Lawful(c)
    ensures dk == Pbkdf2(c, password, salt, AtLeastOne(iterations), keyLen)
  {
    dk := [];
    var numBlocks := BlockCount(keyLen);
    for block := 1 to numBlocks + 1
      invariant dk == Blocks(c, password, salt, AtLeastOne(iterations), block - 1)
    {
      var t := Pbkdf2Block(c, password, salt, iterations, block);
      dk := dk + t;
    }
    dk := dk[..keyLen];
  }

  // ---------- attributes ----------

  /** strings.Split at commas. */
  function SplitComma(s: Bytes): (parts: seq<Bytes>)
    ensures |parts| >= 1
  {
    if s == [] then [[]]
    else
      var more := SplitComma(s[1..]);
      if s[0] == COMMA then [[]] + more else [[s[0]] + more[0]] + more[1..]
  }

  function JoinComma(parts: seq<Bytes>): Bytes
    requires |parts| >= 1
  {
    if |parts| == 1 then parts[0] else parts[0] + ([COMMA] + JoinComma(parts[1..]))
  }

  lemma {:induction false} SplitFirst(a: Bytes, rest: Bytes)
    requires COMMA !in a
    ensures SplitComma(a + ([COMMA] + rest)) == [a] + SplitComma(rest)
  {
    var s := a + ([COMMA] + rest);
    if a == [] {
      assert s[0] == COMMA && s[1..] == rest;
    } else {
      assert s[0] == a[0] && s[1..] == a[1..] + ([COMMA] + rest);
      SplitFirst(a[1..], rest);
      assert [a[0]] + a[1..] == a;
    }
  }

  lemma {:induction false} SplitNone(a: Bytes)
    requires COMMA !in a
    ensures SplitComma(a) == [a]
  {
    if a != [] {
      SplitNone(a[1..]);
      assert [a[0]] + a[1..] == a;
    }
  }

  /** Joining and splitting again gives the parts back. */
  lemma {:induction false} SplitJoin(parts: seq<Bytes>)
    requires |parts| >= 1 && forall i :: 0 <= i < |parts| ==> COMMA !in parts[i]
    ensures SplitComma(JoinComma(parts)) == parts
  {
    if |parts| == 1 {
      SplitNone(parts[0]);
    } else {
      SplitFirst(parts[0], JoinComma(parts[1..]));
      SplitJoin(parts[1..]);
      assert [parts[0]] + parts[1..] == parts;
    }
  }

  /** strings.IndexByte(part, '='). */
  function FirstEquals(s: Bytes): (r: Option<nat>)
    ensures r.Some? ==> r.value < |s|
  {
    if s == [] then None
    else if s[0] == EQUALS then Some(0)
    else match FirstEquals(s[1..]) case None => None case Some(i) => Some(i + 1)
  }

  function WithPart(attributes: map<Bytes, Bytes>, part: Bytes): map<Bytes, Bytes> {
    match FirstEquals(part)
    case None => attributes
    case Some(i) => attributes[part[..i] := part[i + 1..]]
  }

  function Attributes(parts: seq<Bytes>): map<Bytes, Bytes> {
    if parts == [] then map[] else WithPart(Attributes(parts[..|parts| - 1]), parts[|parts| - 1])
  }

  function ParseAttributes(s: Bytes): map<Bytes, Bytes> {
    Attributes(SplitComma(s))
  }

  method ParseScramAttributes(s: Bytes) returns (result: map<Bytes, Bytes>)
    ensures result == ParseAttributes(s)
  {
    result := map[];
    var parts := SplitComma(s);
    for i := 0 to |parts|
      invariant result == Attributes(parts[..i])
    {
      assert parts[..i + 1][..i] == parts[..i];
      var at := FirstEquals(parts[i]);
      if at.Some? {
        result := result[parts[i][..at.value] := parts[i][at.value + 1..]];
      }
    }
    assert parts[..|parts|] == parts;
  }

  /** A one-letter attribute. */
  function Attribute(name: byte, value: Bytes): Bytes {
    [name, EQUALS] + value
  }

  lemma AttributeParsed(attributes: map<Bytes, Bytes>, name: byte, value: Bytes)
    requires name != EQUALS
    ensures WithPart(attributes, Attribute(name, value)) == attributes[[name] := value]
  {
    var s := Attribute(name, value);
    assert s[1..][0] == EQUALS;
    assert FirstEquals(s[1..]) == Some(0);
    assert FirstEquals(s) == Some(1);
    assert s[..1] == [name] && s[2..] == value;
  }

  /** What is in front of the last comma. */
  function BeforeLastComma(s: Bytes): Bytes {
    var parts := SplitComma(s);
    if |parts| == 1 then [] else JoinComma(parts[..|parts| - 1])
  }

  // ---------- the messages of section 3 of RFC 5802 ----------

  const LOWER_C: byte := 0x63
  const LOWER_E: byte := 0x65
  const LOWER_I: byte := 0x69
  const LOWER_N: byte := 0x6E
  const LOWER_P: byte := 0x70
  const LOWER_R: byte := 0x72
  const LOWER_S: byte := 0x73
  const LOWER_V: byte := 0x76

  /** "n,,", "=2C", "=3D", "Client Key" and "Server Key". */
  const GS2_HEADER: Bytes := [LOWER_N, COMMA, COMMA]
  const ESCAPED_COMMA: Bytes := [EQUALS, 0x32, 0x43]
  const ESCAPED_EQUALS: Bytes := [EQUALS, 0x33, 0x44]
  const CLIENT_KEY: Bytes := [0x43, 0x6C, 0x69, 0x65, 0x6E, 0x74, 0x20, 0x4B, 0x65, 0x79]
  const SERVER_KEY: Bytes := [0x53, 0x65, 0x72, 0x76, 0x65, 0x72, 0x20, 0x4B, 0x65, 0x79]

  function ClientFirstBare(username: Bytes, nonce: Bytes): Bytes {
    JoinComma([Attribute(LOWER_N, username), Attribute(LOWER_R, nonce)])
  }

  function ClientFirst(username: Bytes, nonce: Bytes): Bytes {
    GS2_HEADER + ClientFirstBare(username, nonce)
  }

  function WithoutProof(c: Crypto, nonce: Bytes): Bytes {
    JoinComma([Attribute(LOWER_C, c.encode(GS2_HEADER)), Attribute(LOWER_R, nonce)])
  }

  function Salted(c: Crypto, password: Bytes, salt: Bytes, iterations: int): Bytes
    requires Lawful(c)
  {
    Pbkdf2(c, password, salt, AtLeastOne(iterations), HASH_SIZE)
  }

  function AuthMessage(bare: Bytes, serverFirst: Bytes, withoutProof: Bytes): Bytes {
    bare + [COMMA] + serverFirst + [COMMA] + withoutProof
  }

  // ---------- the client ----------

  /** What the client keeps for the last message, and what it sends. */
  datatype Exchange = Exchange(serverKey: Bytes, authMessage: Bytes, clientFinal: Bytes)

  function ClientFinal(c: Crypto, username: Bytes, password: Bytes, clientNonce: Bytes, serverFirst: Bytes,
                       nonce: Bytes, salt: Bytes, iterations: int): Exchange
    requires Lawful(c)
  {
    var salted := Salted(c, password, salt, iterations);
    var clientKey := c.hmac(salted, CLIENT_KEY);
    var authMessage := AuthMessage(ClientFirstBare(username, clientNonce), serverFirst, WithoutProof(c, nonce));
    var proof := Xor(clientKey, c.hmac(c.hash(clientKey), authMessage));
    Exchange(c.hmac(salted, SERVER_KEY), authMessage,
             WithoutProof(c, nonce) + ([COMMA] + Attribute(LOWER_P, c.encode(proof))))
  }

  function AnswerFirst(c: Crypto, username: Bytes, password: Bytes, clientNonce: Bytes, serverFirst: Bytes)
    : Option<Exchange>
    requires Lawful(c)
  {
    var parts := ParseAttributes(serverFirst);
    if [LOWER_R] !in parts || !(clientNonce <= parts[[LOWER_R]]) then None
    else if [LOWER_S] !in parts || c.decode(parts[[LOWER_S]]).None? then None
    else if [LOWER_I] !in parts || Atoi(parts[[LOWER_I]]).None? then None
    else Some(ClientFinal(c, username, password, clientNonce, serverFirst, parts[[LOWER_R]],
                          c.decode(parts[[LOWER_S]]).value, Atoi(parts[[LOWER_I]]).value))
  }

  predicate AcceptsFinal(c: Crypto, serverKey: Bytes, authMessage: Bytes, serverFinal: Bytes) {
    var parts := ParseAttributes(serverFinal);
    [LOWER_E] !in parts && [LOWER_V] in parts && parts[[LOWER_V]] == c.encode(c.hmac(serverKey, authMessage))
  }

  datatype Phase = New | ChallengeReceived | Complete

  class ScramSHA256 {
    const crypto: Crypto
    const username: Bytes
    const password: Bytes
    var state: Phase
    var clientNonce: Bytes
    var serverNonce: Bytes
    var salt: Bytes
    var iterations: int
    var authMessage: Bytes
    var saltedPwd: Bytes
    var serverKey: Bytes

    constructor (crypto: Crypto, username: Bytes, password: Bytes)
      ensures this.crypto == crypto && this.username == username && this.password == password && state == New
    {
      this.crypto, this.username, this.password := crypto, username, password;
      state, clientNonce, serverNonce, salt, iterations := New, [], [], [], 0;
      authMessage, saltedPwd, serverKey := [], [], [];
    }

    /** `random` is what the random number generator gives, if anything. */
    method InitialResponse(random: Option<Bytes>) returns (r: Option<Bytes>)
      modifies this
      ensures state == old(state) && (r.Some? <==> random.Some?)
      ensures r.Some? ==> clientNonce == crypto.encode(random.value) && r.value == ClientFirst(username, clientNonce)
    {
      if random.None? {
        return None;
      }
      clientNonce := crypto.encode(random.value);
      r := Some(ClientFirst(username, clientNonce));
    }

    method EvaluateChallenge(challenge: Bytes) returns (r: Option<Bytes>)
      requires Lawful(crypto)
      modifies this
      ensures clientNonce == old(clientNonce)
      ensures old(state) == New ==>
                match AnswerFirst(crypto, username, password, clientNonce, challenge)
                case Some(x) =>
                  && state == ChallengeReceived && r == Some(x.clientFinal)
                  && serverKey == x.serverKey && authMessage == x.authMessage
                case None => state == New && r == None
      ensures old(state) == ChallengeReceived ==>
                && (r.Some? <==> AcceptsFinal(crypto, old(serverKey), old(authMessage), challenge))
                && state == if r.Some? then Complete else ChallengeReceived
      ensures old(state) == Complete ==> state == Complete && r == None
    {
      match state {
        case New => r := ProcessServerFirst(challenge);
        case ChallengeReceived => r := ProcessServerFinal(challenge);
        case Complete => r := None;
      }
    }

    method ProcessServerFirst(serverFirst: Bytes) returns (r: Option<Bytes>)
      requires Lawful(crypto) && state == New
      modifies this
      ensures clientNonce == old(clientNonce)
      ensures match AnswerFirst(crypto, username, password, clientNonce, serverFirst)
              case Some(x) =>
                && state == ChallengeReceived && r == Some(x.clientFinal)
                && serverKey == x.serverKey && authMessage == x.authMessage
              case None => state == New && r == None
    {
      var parts := ParseScramAttributes(serverFirst);
      serverNonce := if [LOWER_R] in parts then parts[[LOWER_R]] else [];
      if [LOWER_R] !in parts || !(clientNonce <= serverNonce) {
        return None;
      }
      if [LOWER_S] !in parts {
        return None;
      }
      var decoded := crypto.decode(parts[[LOWER_S]]);
      if decoded.None? {
        return None;
      }
      salt := decoded.value;
      if [LOWER_I] !in parts {
        return None;
      }
      var count := Atoi(parts[[LOWER_I]]);
      if count.None? {
        return None;
      }
      iterations := count.value;
      saltedPwd := Pbkdf2SHA256(crypto, password, salt, iterations, HASH_SIZE);
      var clientKey := crypto.hmac(saltedPwd, CLIENT_KEY);
      var storedKey := crypto.hash(clientKey);
      serverKey := crypto.hmac(saltedPwd, SERVER_KEY);
      var clientFinalNoProof := WithoutProof(crypto, serverNonce);
      authMessage := ClientFirstBare(username, clientNonce) + [COMMA] + serverFirst + [COMMA] + clientFinalNoProof;
      var clientProof := Xor(clientKey, crypto.hmac(storedKey, authMessage));
      state := ChallengeReceived;
      r := Some(clientFinalNoProof + ([COMMA] + Attribute(LOWER_P, crypto.encode(clientProof))));
    }

    method ProcessServerFinal(serverFinal: Bytes) returns (r: Option<Bytes>)
      requires state == ChallengeReceived
      modifies this`state
      ensures r.Some? <==> AcceptsFinal(crypto, serverKey, authMessage, serverFinal)
      ensures state == if r.Some? then Complete else ChallengeReceived
    {
      var parts := ParseScramAttributes(serverFinal);
      if [LOWER_E] in parts || [LOWER_V] !in parts {
        return None;
      }
      if parts[[LOWER_V]] != crypto.encode(crypto.hmac(serverKey, authMessage)) {
        return None;
      }
      state := Complete;
      r := Some([]);
    }
  }

  // ---------- an honest server ----------

  datatype Account = Account(name: Bytes, salt: Bytes, iterations: nat, storedKey: Bytes, serverKey: Bytes)

  /** What the server keeps instead of the password. */
  function Enrolled(c: Crypto, name: Bytes, password: Bytes, salt: Bytes, iterations: nat): Account
    requires Lawful(c)
  {
    var salted := Salted(c, password, salt, iterations);
    Account(name, salt, iterations, c.hash(c.hmac(salted, CLIENT_KEY)), c.hmac(salted, SERVER_KEY))
  }

  /** The escapes of section 5.1, "=2C" and "=3D"; a NUL, a bare comma and any other "=" are no part of a name. */
  function Unescape(s: Bytes): (r: Option<Bytes>)
    ensures r.Some? ==> |r.value| <= |s|
  {
    if s == [] then Some([])
    else
      var escaped := s[0] == EQUALS && (ESCAPED_COMMA <= s || ESCAPED_EQUALS <= s);
      if s[0] in {0, COMMA} || (s[0] == EQUALS && !escaped) then None
      else
        var first := if ESCAPED_COMMA <= s then COMMA else s[0];
        match Unescape(s[if escaped then 3 else 1..])
        case None => None
        case Some(more) => Some([first] + more)
  }

  /** The saslname of section 7 is not empty. */
  function ReadName(s: Bytes): Option<Bytes> {
    if s == [] then None else Unescape(s)
  }

  /** The server answers if it reads the account's name. */
  function ServerFirst(c: Crypto, account: Account, clientFirst: Bytes, nonce: Bytes): Option<Bytes> {
    var parts := ParseAttributes(clientFirst);
    if [LOWER_N] !in parts || ReadName(parts[[LOWER_N]]) != Some(account.name) || [LOWER_R] !in parts then None
    else Some(JoinComma([Attribute(LOWER_R, parts[[LOWER_R]] + nonce), Attribute(LOWER_S, c.encode(account.salt)),
                         Attribute(LOWER_I, Digits(account.iterations))]))
  }

  /** The key that the server finds in a client's final message. */
  function RecoveredKey(c: Crypto, account: Account, clientFirst: Bytes, serverFirst: Bytes, clientFinal: Bytes)
    : Option<Bytes>
    requires |clientFirst| >= 3
  {
    var parts := ParseAttributes(clientFinal);
    if [LOWER_P] !in parts then None
    else
      var authMessage := AuthMessage(clientFirst[3..], serverFirst, BeforeLastComma(clientFinal));
      var signature := c.hmac(account.storedKey, authMessage);
      match c.decode(parts[[LOWER_P]])
      case None => None
      case Some(proof) => if |proof| != |signature| then None else Some(Xor(proof, signature))
  }

  function ServerFinal(c: Crypto, account: Account, clientFirst: Bytes, serverFirst: Bytes, clientFinal: Bytes)
    : Option<Bytes>
    requires |clientFirst| >= 3
  {
    match RecoveredKey(c, account, clientFirst, serverFirst, clientFinal)
    case None => None
    case Some(key) =>
      if c.hash(key) != account.storedKey then None
      else
        var authMessage := AuthMessage(clientFirst[3..], serverFirst, BeforeLastComma(clientFinal));
        Some(Attribute(LOWER_V, c.encode(c.hmac(account.serverKey, authMessage))))
  }

  // ---------- an honest run ----------

  /** Attributes as printed are parsed one by one. */
  function Printed(names: seq<byte>, values: seq<Bytes>): (parts: seq<Bytes>)
    requires |names| == |values|
    ensures |parts| == |names|
  {
    seq(|names|, i requires 0 <= i < |names| => Attribute(names[i], values[i]))
  }

  ghost predicate Printable(names: seq<byte>, values: seq<Bytes>) {
    && |names| == |values| >= 1
    && (forall i :: 0 <= i < |names| ==> names[i] != EQUALS && names[i] != COMMA && COMMA !in values[i])
  }

  function AsMap(names: seq<byte>, values: seq<Bytes>): map<Bytes, Bytes>
    requires |names| == |values|
  {
    if names == [] then map[]
    else
      var n := |names| - 1;
      AsMap(names[..n], values[..n])[[names[n]] := values[n]]
  }

  lemma {:induction false} AttributesOfPrinted(names: seq<byte>, values: seq<Bytes>)
    requires |names| == |values| && forall i :: 0 <= i < |names| ==> names[i] != EQUALS
    ensures Attributes(Printed(names, values)) == AsMap(names, values)
  {
    if names != [] {
      var n := |names| - 1;
      AttributesOfPrinted(names[..n], values[..n]);
      assert Printed(names, values)[..n] == Printed(names[..n], values[..n]);
      AttributeParsed(AsMap(names[..n], values[..n]), names[n], values[n]);
    }
  }

  /** Parsing undoes printing. */
  lemma ParsePrinted(names: seq<byte>, values: seq<Bytes>)
    requires Printable(names, values)
    ensures ParseAttributes(JoinComma(Printed(names, values))) == AsMap(names, values)
  {
    var parts := Printed(names, values);
    forall i | 0 <= i < |parts|
      ensures COMMA !in parts[i]
    {
    }
    SplitJoin(parts);
    AttributesOfPrinted(names, values);
  }

  lemma {:induction false} DigitsHaveNoComma(n: nat)
    ensures COMMA !in Digits(n)
  {
    if n >= 10 {
      DigitsHaveNoComma(n / 10);
    }
  }

  /** The server reads the client's nonce from the first message, and the user name if it has no comma in it. */
  lemma ClientFirstRead(username: Bytes, nonce: Bytes)
    requires COMMA !in username && COMMA !in nonce
    ensures var parts := ParseAttributes(ClientFirst(username, nonce));
            && [LOWER_R] in parts && parts[[LOWER_R]] == nonce
            && [LOWER_N] in parts && parts[[LOWER_N]] == username
  {
    var names, values := [LOWER_N, LOWER_R], [username, nonce];
    var bare := ClientFirstBare(username, nonce);
    var printed := Printed(names, values);
    assert printed == [Attribute(LOWER_N, username), Attribute(LOWER_R, nonce)];
    var rest := [] + ([COMMA] + bare);
    assert ClientFirst(username, nonce) == [LOWER_N] + ([COMMA] + rest);
    SplitFirst([LOWER_N], rest);
    SplitFirst([], bare);
    SplitJoin(printed);
    var parts := [[LOWER_N], []] + printed;
    assert SplitComma(ClientFirst(username, nonce)) == parts;
    assert parts[..3][..2][..1] == [[LOWER_N]] && parts[..3][..2] == [[LOWER_N], []] && parts[..3][2] == printed[0];
    assert FirstEquals([]) == None;
    assert FirstEquals([LOWER_N][1..]) == None;
    assert FirstEquals([LOWER_N]) == None;
    assert [[LOWER_N]][..0] == [];
    assert Attributes([[LOWER_N]]) == map[];
    assert Attributes(parts[..2]) == map[];
    AttributeParsed(map[], LOWER_N, username);
    assert Attributes(parts[..3]) == map[[LOWER_N] := username];
    AttributeParsed(Attributes(parts[..3]), LOWER_R, nonce);
    assert parts[..|parts| - 1] == parts[..3];
  }

  /** What the server takes for a name and does not read as something else. */
  predicate PlainName(username: Bytes) {
    username != [] && 0 !in username && COMMA !in username && EQUALS !in username
  }

  /** Unescaping gives back exactly the names in which there is nothing to escape. */
  lemma {:induction false} UnescapedIff(s: Bytes)
    ensures Unescape(s) == Some(s) <==> 0 !in s && COMMA !in s && EQUALS !in s
    ensures EQUALS in s && Unescape(s).Some? ==> |Unescape(s).value| < |s|
  {
    if s != [] {
      assert s == [s[0]] + s[1..];
      UnescapedIff(s[1..]);
      if s[0] != EQUALS {
        assert !(ESCAPED_COMMA <= s);
      }
    }
  }

  lemma {:induction false} SplitBoth(a: Bytes, b: Bytes)
    ensures SplitComma(a + ([COMMA] + b)) == SplitComma(a) + SplitComma(b)
  {
    var s := a + ([COMMA] + b);
    if a == [] {
      assert s[0] == COMMA && s[1..] == b;
    } else {
      assert s[0] == a[0] && s[1..] == a[1..] + ([COMMA] + b);
      SplitBoth(a[1..], b);
    }
  }

  /** With a comma in it every part is shorter than the whole. */
  lemma {:induction false} PartsAreShorter(s: Bytes)
    ensures forall i :: 0 <= i < |SplitComma(s)| ==> |SplitComma(s)[i]| + |SplitComma(s)| <= |s| + 1
    ensures COMMA in s ==> |SplitComma(s)| >= 2
  {
    if s != [] {
      PartsAreShorter(s[1..]);
    }
  }

  lemma {:induction false} AttributeComesFrom(parts: seq<Bytes>, name: byte) returns (i: nat)
    requires [name] in Attributes(parts)
    ensures i < |parts| && parts[i] == Attribute(name, Attributes(parts)[[name]])
  {
    var n := |parts| - 1;
    var at := FirstEquals(parts[n]);
    if at.Some? && parts[n][..at.value] == [name] {
      i := n;
      EqualsFound(parts[n]);
      assert parts[n] == parts[n][..1] + [EQUALS] + parts[n][2..];
    } else {
      i := AttributeComesFrom(parts[..n], name);
    }
  }

  lemma {:induction false} EqualsFound(s: Bytes)
    requires FirstEquals(s).Some?
    ensures s[FirstEquals(s).value] == EQUALS
  {
    if s[0] != EQUALS {
      EqualsFound(s[1..]);
    }
  }

  lemma ClientFirstParts(username: Bytes, nonce: Bytes)
    requires COMMA !in nonce
    ensures SplitComma(ClientFirst(username, nonce)) ==
            [[LOWER_N], []] + SplitComma(Attribute(LOWER_N, username)) + [Attribute(LOWER_R, nonce)]
  {
    var bare := ClientFirstBare(username, nonce);
    var rest := [] + ([COMMA] + bare);
    assert ClientFirst(username, nonce) == [LOWER_N] + ([COMMA] + rest);
    SplitFirst([LOWER_N], rest);
    SplitFirst([], bare);
    var name, last := Attribute(LOWER_N, username), Attribute(LOWER_R, nonce);
    assert [name, last][1..] == [last] && JoinComma([last]) == last;
    assert bare == name + ([COMMA] + last);
    SplitBoth(name, last);
    SplitNone(last);
  }

  lemma CutNameIsShorter(username: Bytes, nonce: Bytes)
    requires COMMA !in nonce && COMMA in username
    ensures var parts := ParseAttributes(ClientFirst(username, nonce));
            [LOWER_N] in parts ==> |parts[[LOWER_N]]| < |username|
  {
    var s := ClientFirst(username, nonce);
    ClientFirstParts(username, nonce);
    if [LOWER_N] in ParseAttributes(s) {
      var i := AttributeComesFrom(SplitComma(s), LOWER_N);
      var names := SplitComma(Attribute(LOWER_N, username));
      PartsAreShorter(Attribute(LOWER_N, username));
      assert SplitComma(s)[0] == [LOWER_N] && SplitComma(s)[1] == [];
      assert SplitComma(s)[|names| + 2][0] == LOWER_R;
      assert SplitComma(s)[i] == names[i - 2];
    }
  }

  /** The name is sent as it is, without the escapes of section 5.1: it arrives exactly if it needs none. */
  lemma UsernameArrivesIff(username: Bytes, nonce: Bytes)
    requires COMMA !in nonce
    ensures var parts := ParseAttributes(ClientFirst(username, nonce));
            [LOWER_N] in parts && ReadName(parts[[LOWER_N]]) == Some(username) <==> PlainName(username)
  {
    if COMMA in username {
      CutNameIsShorter(username, nonce);
    } else {
      ClientFirstRead(username, nonce);
      UnescapedIff(username);
    }
  }

  lemma ServerFirstRead(c: Crypto, account: Account, clientNonce: Bytes, nonce: Bytes, serverFirst: Bytes)
    requires Lawful(c) && COMMA !in clientNonce && COMMA !in nonce && account.iterations < TWO_63
    requires serverFirst == JoinComma([Attribute(LOWER_R, clientNonce + nonce),
                                       Attribute(LOWER_S, c.encode(account.salt)),
                                       Attribute(LOWER_I, Digits(account.iterations))])
    ensures var parts := ParseAttributes(serverFirst);
            && [LOWER_R] in parts && parts[[LOWER_R]] == clientNonce + nonce
            && [LOWER_S] in parts && c.decode(parts[[LOWER_S]]) == Some(account.salt)
            && [LOWER_I] in parts && Atoi(parts[[LOWER_I]]) == Some(account.iterations)
  {
    var names := [LOWER_R, LOWER_S, LOWER_I];
    var values := [clientNonce + nonce, c.encode(account.salt), Digits(account.iterations)];
    DigitsHaveNoComma(account.iterations);
    AtoiOfDigits(account.iterations);
    ParsePrinted(names, values);
    assert Printed(names, values) == [Attribute(LOWER_R, values[0]), Attribute(LOWER_S, values[1]),
                                      Attribute(LOWER_I, values[2])];
    ThreeAttributes(names, values);
  }

  lemma ThreeAttributes(names: seq<byte>, values: seq<Bytes>)
    requires |names| == |values| == 3
    ensures AsMap(names, values) == map[][[names[0]] := values[0]][[names[1]] := values[1]][[names[2]] := values[2]]
  {
    assert names[..2][..1] == names[..1] && values[..2][..1] == values[..1];
    assert names[..1][..0] == [] && values[..1][..0] == [];
    assert AsMap([], []) == map[];
    assert AsMap(names[..1], values[..1]) == map[][[names[0]] := values[0]];
    assert AsMap(names[..2], values[..2]) == map[][[names[0]] := values[0]][[names[1]] := values[1]];
  }

  /** The final message's attributes, and what stands before its proof. */
  lemma ClientFinalRead(c: Crypto, nonce: Bytes, proof: Bytes)
    requires Lawful(c) && COMMA !in nonce
    ensures var s := WithoutProof(c, nonce) + ([COMMA] + Attribute(LOWER_P, c.encode(proof)));
            var parts := ParseAttributes(s);
            && BeforeLastComma(s) == WithoutProof(c, nonce)
            && parts == map[][[LOWER_C] := c.encode(GS2_HEADER)][[LOWER_R] := nonce][[LOWER_P] := c.encode(proof)]
  {
    var names := [LOWER_C, LOWER_R, LOWER_P];
    var values := [c.encode(GS2_HEADER), nonce, c.encode(proof)];
    var printed := Printed(names, values);
    var s := WithoutProof(c, nonce) + ([COMMA] + Attribute(LOWER_P, c.encode(proof)));
    assert printed == [Attribute(LOWER_C, values[0]), Attribute(LOWER_R, nonce), Attribute(LOWER_P, values[2])];
    ThreeParts(printed);
    assert printed[..2] == [Attribute(LOWER_C, values[0]), Attribute(LOWER_R, nonce)];
    assert s == JoinComma(printed);
    ParsePrinted(names, values);
    ThreeAttributes(names, values);
    forall i | 0 <= i < |printed|
      ensures COMMA !in printed[i]
    {
    }
    SplitJoin(printed);
  }

  lemma ThreeParts(parts: seq<Bytes>)
    requires |parts| == 3
    ensures JoinComma(parts) == JoinComma(parts[..2]) + ([COMMA] + parts[2])
  {
    assert parts[1..][1..] == [parts[2]];
    assert parts[..2][1..] == [parts[1]];
    var a, b, d := parts[0], parts[1], parts[2];
    assert parts[1..][0] == b && JoinComma([d]) == d;
    assert JoinComma(parts[1..]) == b + ([COMMA] + d);
    assert JoinComma(parts) == a + ([COMMA] + (b + ([COMMA] + d)));
    assert JoinComma(parts[..2]) == a + ([COMMA] + b);
  }

  /** The client's side of a run, from the server's first message on. */
  lemma ClientAnswers(c: Crypto, username: Bytes, password: Bytes, clientNonce: Bytes, account: Account, nonce: Bytes,
                      serverFirst: Bytes)
    requires Lawful(c) && COMMA !in username && COMMA !in clientNonce && COMMA !in nonce
    requires account.iterations < TWO_63
    requires ServerFirst(c, account, ClientFirst(username, clientNonce), nonce) == Some(serverFirst)
    ensures AnswerFirst(c, username, password, clientNonce, serverFirst) ==
            Some(ClientFinal(c, username, password, clientNonce, serverFirst, clientNonce + nonce, account.salt,
                             account.iterations))
  {
    ClientFirstRead(username, clientNonce);
    ServerFirstRead(c, account, clientNonce, nonce, serverFirst);
  }

  /** The server finds the client's key in the proof, by exclusive or with the signature. */
  lemma ServerRecoversKey(c: Crypto, username: Bytes, password: Bytes, clientNonce: Bytes, account: Account,
                          nonce: Bytes, serverFirst: Bytes)
    requires Lawful(c) && COMMA !in clientNonce && COMMA !in nonce
    requires account == Enrolled(c, username, password, account.salt, account.iterations)
    ensures var x := ClientFinal(c, username, password, clientNonce, serverFirst, clientNonce + nonce, account.salt,
                                 account.iterations);
            && BeforeLastComma(x.clientFinal) == WithoutProof(c, clientNonce + nonce)
            && RecoveredKey(c, account, ClientFirst(username, clientNonce), serverFirst, x.clientFinal) ==
               Some(c.hmac(Salted(c, password, account.salt, account.iterations), CLIENT_KEY))
  {
    var key := c.hmac(Salted(c, password, account.salt, account.iterations), CLIENT_KEY);
    var withoutProof := WithoutProof(c, clientNonce + nonce);
    var message := AuthMessage(ClientFirstBare(username, clientNonce), serverFirst, withoutProof);
    var signature := c.hmac(c.hash(key), message);
    assert ClientFirst(username, clientNonce)[3..] == ClientFirstBare(username, clientNonce);
    ClientFinalRead(c, clientNonce + nonce, Xor(key, signature));
    XorTwice(key, signature);
  }

  /** With the right password and any salt, count and nonces, both sides accept each other. */
  lemma HonestRun(c: Crypto, username: Bytes, password: Bytes, clientNonce: Bytes, account: Account, nonce: Bytes,
                  serverFirst: Bytes)
    requires Lawful(c) && COMMA !in username && COMMA !in clientNonce && COMMA !in nonce
    requires account == Enrolled(c, username, password, account.salt, account.iterations) && account.iterations < TWO_63
    requires ServerFirst(c, account, ClientFirst(username, clientNonce), nonce) == Some(serverFirst)
    ensures var answer := AnswerFirst(c, username, password, clientNonce, serverFirst);
            && answer.Some?
            && var final := ServerFinal(c, account, ClientFirst(username, clientNonce), serverFirst,
                                        answer.value.clientFinal);
            && final.Some? && AcceptsFinal(c, answer.value.serverKey, answer.value.authMessage, final.value)
  {
    ClientAnswers(c, username, password, clientNonce, account, nonce, serverFirst);
    ServerRecoversKey(c, username, password, clientNonce, account, nonce, serverFirst);
    var x := AnswerFirst(c, username, password, clientNonce, serverFirst).value;
    assert ClientFirst(username, clientNonce)[3..] == ClientFirstBare(username, clientNonce);
    FinalRead(c, c.hmac(x.serverKey, x.authMessage));
  }

  lemma FinalRead(c: Crypto, signature: Bytes)
    requires Lawful(c)
    ensures ParseAttributes(Attribute(LOWER_V, c.encode(signature))) == map[[LOWER_V] := c.encode(signature)]
  {
    var names, values := [LOWER_V], [c.encode(signature)];
    ParsePrinted(names, values);
    assert Printed(names, values) == [Attribute(LOWER_V, c.encode(signature))];
    assert names[..0] == [] && values[..0] == [];
    assert AsMap([], []) == map[];
  }

  // ---------- Authenticate ----------

  /** What an Auth request brings: None if it fails. */
  datatype AuthResponse = AuthResponse(completed: bool, challenge: Bytes)

  const NAME: Bytes := [0x53, 0x43, 0x52, 0x41, 0x4D, 0x2D, 0x53, 0x48, 0x41, 0x2D, 0x32, 0x35, 0x36]

  method Contains(names: seq<Bytes>, name: Bytes) returns (found: bool)
    ensures found <==> name in names
  {
    found := false;
    for i := 0 to |names|
      invariant !found && name !in names[..i]
    {
      if names[i] == name {
        return true;
      }
    }
    assert names[..|names|] == names;
  }

  /** How an authentication ends: with success or not, after which Auth requests, and in which phase. */
  datatype Ending = Ending(ok: bool, sent: seq<Bytes>, phase: Phase)

  /** The second Auth request, if the server asked for one. */
  function SecondRequest(c: Crypto, x: Exchange, first: Bytes, server: seq<Bytes> -> Option<AuthResponse>): Ending {
    var sent := [first, x.clientFinal];
    match server(sent)
    case None => Ending(false, sent, ChallengeReceived)
    case Some(r) =>
      if AcceptsFinal(c, x.serverKey, x.authMessage, r.challenge) then Ending(true, sent, Complete)
      else Ending(false, sent, ChallengeReceived)
  }

  /** The first answer, without asking for a second one. */
  datatype Turn = Over(ending: Ending) | Continue(exchange: Exchange)

  function FirstRequest(c: Crypto, username: Bytes, password: Bytes, clientNonce: Bytes, sent: seq<Bytes>,
                        reply: Option<AuthResponse>): Turn
    requires Lawful(c)
  {
    match reply
    case None => Over(Ending(false, sent, New))
    case Some(r) =>
      match AnswerFirst(c, username, password, clientNonce, r.challenge)
      case None => Over(Ending(false, sent, New))
      case Some(x) => if r.completed then Over(Ending(true, sent, ChallengeReceived)) else Continue(x)
  }

  /** A fresh mechanism's authentication against any server. */
  function Dialogue(c: Crypto, username: Bytes, password: Bytes, clientNonce: Bytes,
                    server: seq<Bytes> -> Option<AuthResponse>): Ending
    requires Lawful(c)
  {
    var first := ClientFirst(username, clientNonce);
    match FirstRequest(c, username, password, clientNonce, [first], server([first]))
    case Over(ending) => ending
    case Continue(x) => SecondRequest(c, x, first, server)
  }

  /** One turn of the loop after a request was sent: whether it is over, and with success, or what to send next. */
  method HandleReply(mech: ScramSHA256, sent: seq<Bytes>, result: Option<AuthResponse>)
    returns (over: bool, ok: bool, response: Bytes)
    requires Lawful(mech.crypto)
    modifies mech
    ensures mech.clientNonce == old(mech.clientNonce)
    ensures old(mech.state) == New ==>
              match FirstRequest(mech.crypto, mech.username, mech.password, mech.clientNonce, sent, result)
              case Over(ending) => over && ending == Ending(ok, sent, mech.state)
              case Continue(x) =>
                !over && mech.state == ChallengeReceived && x == Exchange(mech.serverKey, mech.authMessage, response)
    ensures old(mech.state) == ChallengeReceived ==>
              && over
              && ok == (result.Some? && AcceptsFinal(mech.crypto, old(mech.serverKey), old(mech.authMessage),
                                                     result.value.challenge))
              && mech.state == if ok then Complete else ChallengeReceived
    ensures old(mech.state) == Complete ==> over
  {
    if result.None? {
      return true, false, [];
    }
    if result.value.completed {
      if mech.state != Complete {
        var verified := mech.EvaluateChallenge(result.value.challenge);
        if verified.None? {
          return true, false, [];
        }
      }
      return true, true, [];
    }
    var next := mech.EvaluateChallenge(result.value.challenge);
    if next.None? {
      return true, false, [];
    }
    if mech.state == Complete {
      return true, true, [];
    }
    return false, false, next.value;
  }

  /** The loop of Auth requests. */
  method ExchangeMessages(mech: ScramSHA256, first: Bytes, server: seq<Bytes> -> Option<AuthResponse>)
    returns (ok: bool, sent: seq<Bytes>)
    requires Lawful(mech.crypto)
    modifies mech
    ensures |sent| <= 2
    ensures old(mech.state) == New && first == ClientFirst(mech.username, old(mech.clientNonce)) ==>
              Ending(ok, sent, mech.state) ==
              Dialogue(mech.crypto, mech.username, mech.password, old(mech.clientNonce), server)
  {
    ghost var turn := FirstRequest(mech.crypto, mech.username, mech.password, mech.clientNonce, [first],
                                   server([first]));
    sent := [first];
    var over, response;
    over, ok, response := HandleReply(mech, sent, server(sent));
    ghost var x := Exchange(mech.serverKey, mech.authMessage, response);
    while !over
      invariant |sent| <= 2 && (!over ==> sent == [first] && (old(mech.state) == New ==> turn == Continue(x)))
      invariant !over ==> x == Exchange(mech.serverKey, mech.authMessage, response) && mech.state == ChallengeReceived
      invariant over && old(mech.state) == New ==>
                  match turn
                  case Over(ending) => ending == Ending(ok, sent, mech.state)
                  case Continue(x) => SecondRequest(mech.crypto, x, first, server) == Ending(ok, sent, mech.state)
      decreases if over then 0 else 1
    {
      sent := sent + [response];
      assert sent == [first, response];
      over, ok, response := HandleReply(mech, sent, server(sent));
    }
  }

  /**
   * `mechs` is the server's list; `server` answers an Auth request, given everything sent before it and it.
   * No server can make the client send a third request.
   */
  method Authenticate(mech: ScramSHA256, mechs: Option<seq<Bytes>>, random: Option<Bytes>,
                      server: seq<Bytes> -> Option<AuthResponse>)
    returns (ok: bool, sent: seq<Bytes>)
    requires Lawful(mech.crypto)
    modifies mech
    ensures |sent| <= 2
    ensures mechs.None? || NAME !in mechs.value || random.None? ==> !ok && sent == []
    ensures old(mech.state) == New && mechs.Some? && NAME in mechs.value && random.Some? ==>
              Ending(ok, sent, mech.state) ==
              Dialogue(mech.crypto, mech.username, mech.password, mech.crypto.encode(random.value), server)
  {
    if mechs.None? {
      return false, [];
    }
    var found := Contains(mechs.value, NAME);
    if !found {
      return false, [];
    }
    var initial := mech.InitialResponse(random);
    if initial.None? {
      return false, [];
    }
    ok, sent := ExchangeMessages(mech, initial.value, server);
  }

  /** Success means that the server's signature was verified, unless the server was done after one request. */
  lemma SuccessIsVerified(c: Crypto, username: Bytes, password: Bytes, clientNonce: Bytes,
                          server: seq<Bytes> -> Option<AuthResponse>)
    requires Lawful(c)
    ensures var e := Dialogue(c, username, password, clientNonce, server);
            && 1 <= |e.sent| <= 2
            && (e.phase == Complete <==> e.ok && |e.sent| == 2)
            && (e.ok && |e.sent| == 1 <==>
                var r := server([ClientFirst(username, clientNonce)]);
                && r.Some? && r.value.completed
                && AnswerFirst(c, username, password, clientNonce, r.value.challenge).Some?)
  {
  }

  // ---------- what success takes, in terms of the messages alone ----------

  lemma {:induction false} PartsHaveNoComma(s: Bytes)
    ensures forall i :: 0 <= i < |SplitComma(s)| ==> COMMA !in SplitComma(s)[i]
  {
    if s != [] {
      PartsHaveNoComma(s[1..]);
    }
  }

  lemma {:induction false} ValuesHaveNoComma(parts: seq<Bytes>, name: Bytes)
    requires forall i :: 0 <= i < |parts| ==> COMMA !in parts[i]
    ensures name in Attributes(parts) ==> COMMA !in Attributes(parts)[name]
  {
    if parts != [] {
      ValuesHaveNoComma(parts[..|parts| - 1], name);
      assert COMMA !in parts[|parts| - 1];
    }
  }

  lemma ParsedHasNoComma(s: Bytes, name: Bytes)
    ensures name in ParseAttributes(s) ==> COMMA !in ParseAttributes(s)[name]
  {
    PartsHaveNoComma(s);
    ValuesHaveNoComma(SplitComma(s), name);
  }

  /** The server's first message: the client's nonce with something behind it, a salt and a count. */
  predicate IsServerFirst(c: Crypto, clientNonce: Bytes, serverFirst: Bytes) {
    var parts := ParseAttributes(serverFirst);
    && [LOWER_R] in parts && clientNonce <= parts[[LOWER_R]]
    && [LOWER_S] in parts && c.decode(parts[[LOWER_S]]).Some?
    && [LOWER_I] in parts && Atoi(parts[[LOWER_I]]).Some?
  }

  /** The salted password of section 3 of RFC 5802 for the salt and the count in that message. */
  function SaltedFor(c: Crypto, password: Bytes, serverFirst: Bytes): Bytes
    requires Lawful(c) && IsServerFirst(c, [], serverFirst)
  {
    var parts := ParseAttributes(serverFirst);
    Pbkdf2(c, password, c.decode(parts[[LOWER_S]]).value, AtLeastOne(Atoi(parts[[LOWER_I]]).value), HASH_SIZE)
  }

  /** The messages before the proof, with commas between them. */
  function Transcript(first: Bytes, serverFirst: Bytes, last: Bytes): Bytes
    requires |first| >= 3
  {
    first[3..] + [COMMA] + serverFirst + [COMMA] + BeforeLastComma(last)
  }

  /** The server's signature over that, for the salted password. */
  predicate IsSigned(c: Crypto, salted: Bytes, transcript: Bytes, final: Bytes) {
    var parts := ParseAttributes(final);
    && [LOWER_E] !in parts
    && [LOWER_V] in parts && parts[[LOWER_V]] == c.encode(c.hmac(c.hmac(salted, SERVER_KEY), transcript))
  }

  /** The client's last message, attribute by attribute; its proof hides the client key behind the signature. */
  ghost predicate IsClientFinal(c: Crypto, salted: Bytes, serverFirst: Bytes, transcript: Bytes, last: Bytes)
    requires Lawful(c) && [LOWER_R] in ParseAttributes(serverFirst)
  {
    var parts, clientKey := ParseAttributes(last), c.hmac(salted, CLIENT_KEY);
    && parts.Keys == {[LOWER_C], [LOWER_R], [LOWER_P]}
    && parts[[LOWER_C]] == c.encode(GS2_HEADER)
    && parts[[LOWER_R]] == ParseAttributes(serverFirst)[[LOWER_R]]
    && parts[[LOWER_P]] == c.encode(Xor(clientKey, c.hmac(c.hash(clientKey), transcript)))
  }

  lemma AnswersServerFirstOnly(c: Crypto, username: Bytes, password: Bytes, clientNonce: Bytes, serverFirst: Bytes)
    requires Lawful(c)
    ensures AnswerFirst(c, username, password, clientNonce, serverFirst).Some? <==>
            IsServerFirst(c, clientNonce, serverFirst)
  {
  }

  lemma LastMessage(c: Crypto, username: Bytes, password: Bytes, clientNonce: Bytes, serverFirst: Bytes)
    requires Lawful(c) && IsServerFirst(c, clientNonce, serverFirst)
    ensures var x := AnswerFirst(c, username, password, clientNonce, serverFirst).value;
            var salted := SaltedFor(c, password, serverFirst);
            var transcript := Transcript(ClientFirst(username, clientNonce), serverFirst, x.clientFinal);
            && IsClientFinal(c, salted, serverFirst, transcript, x.clientFinal)
            && x.authMessage == transcript && x.serverKey == c.hmac(salted, SERVER_KEY)
  {
    var nonce, salted := ParseAttributes(serverFirst)[[LOWER_R]], SaltedFor(c, password, serverFirst);
    ParsedHasNoComma(serverFirst, [LOWER_R]);
    var first := ClientFirst(username, clientNonce);
    assert first[3..] == ClientFirstBare(username, clientNonce);
    var message := AuthMessage(first[3..], serverFirst, WithoutProof(c, nonce));
    var clientKey := c.hmac(salted, CLIENT_KEY);
    ClientFinalRead(c, nonce, Xor(clientKey, c.hmac(c.hash(clientKey), message)));
  }

  lemma SignedIsAccepted(c: Crypto, salted: Bytes, transcript: Bytes, final: Bytes)
    ensures AcceptsFinal(c, c.hmac(salted, SERVER_KEY), transcript, final) <==> IsSigned(c, salted, transcript, final)
  {
  }

  /** The exchange goes on exactly after a server's first message that does not say the server is done. */
  predicate GoesOn(c: Crypto, clientNonce: Bytes, reply: Option<AuthResponse>) {
    reply.Some? && !reply.value.completed && IsServerFirst(c, clientNonce, reply.value.challenge)
  }

  /**
   * With two requests, authentication succeeds exactly if the server signs the whole exchange with the key that belongs
   * to the password, the salt and the count it named; the client's last message proves its own key the same way.
   */
  lemma SucceedsIff(c: Crypto, username: Bytes, password: Bytes, clientNonce: Bytes,
                    server: seq<Bytes> -> Option<AuthResponse>)
    requires Lawful(c)
    ensures var e := Dialogue(c, username, password, clientNonce, server);
            && e.sent != []
            && e.sent[0] ==
               [LOWER_N, COMMA, COMMA, LOWER_N, EQUALS] + username + [COMMA, LOWER_R, EQUALS] + clientNonce
            && (|e.sent| == 2 <==> GoesOn(c, clientNonce, server(e.sent[..1])))
            && (|e.sent| == 2 ==>
                  var serverFirst := server(e.sent[..1]).value.challenge;
                  var salted := SaltedFor(c, password, serverFirst);
                  var transcript := Transcript(e.sent[0], serverFirst, e.sent[1]);
                  && IsClientFinal(c, salted, serverFirst, transcript, e.sent[1])
                  && (e.ok <==>
                        server(e.sent).Some? && IsSigned(c, salted, transcript, server(e.sent).value.challenge)))
  {
    var e, first := Dialogue(c, username, password, clientNonce, server), ClientFirst(username, clientNonce);
    FirstMessage(username, clientNonce);
    assert e.sent[0] == first && e.sent[..1] == [first];
    if server([first]).Some? {
      var serverFirst := server([first]).value.challenge;
      AnswersServerFirstOnly(c, username, password, clientNonce, serverFirst);
      if GoesOn(c, clientNonce, server([first])) {
        LastMessage(c, username, password, clientNonce, serverFirst);
        var x := AnswerFirst(c, username, password, clientNonce, serverFirst).value;
        assert e == SecondRequest(c, x, first, server) && e.sent == [first, x.clientFinal];
        if server(e.sent).Some? {
          SignedIsAccepted(c, SaltedFor(c, password, serverFirst), x.authMessage, server(e.sent).value.challenge);
        }
      }
    }
  }

  lemma FirstMessage(username: Bytes, nonce: Bytes)
    ensures ClientFirst(username, nonce) ==
            [LOWER_N, COMMA, COMMA, LOWER_N, EQUALS] + username + [COMMA, LOWER_R, EQUALS] + nonce
  {
    var name, last := Attribute(LOWER_N, username), Attribute(LOWER_R, nonce);
    assert [name, last][1..] == [last] && JoinComma([last]) == last;
    assert ClientFirstBare(username, nonce) == name + ([COMMA] + last);
  }

  /** A server without any account: it takes up the client's nonce, makes up salt and count, and says it is done. */
  function HastyServer(c: Crypto, nonce: Bytes, salt: Bytes, iterations: nat): seq<Bytes> -> Option<AuthResponse> {
    (sent: seq<Bytes>) =>
      if |sent| == 0 || [LOWER_R] !in ParseAttributes(sent[0]) then None
      else
        Some(AuthResponse(true, JoinComma([Attribute(LOWER_R, ParseAttributes(sent[0])[[LOWER_R]] + nonce),
                                           Attribute(LOWER_S, c.encode(salt)),
                                           Attribute(LOWER_I, Digits(iterations))])))
  }

  /** The nonce is the last attribute of the client's first message, so a server reads it for every user name. */
  lemma NonceRead(username: Bytes, nonce: Bytes)
    requires COMMA !in nonce
    ensures var parts := ParseAttributes(ClientFirst(username, nonce)); [LOWER_R] in parts && parts[[LOWER_R]] == nonce
  {
    var parts := [[LOWER_N], []] + SplitComma(Attribute(LOWER_N, username)) + [Attribute(LOWER_R, nonce)];
    ClientFirstParts(username, nonce);
    AttributeParsed(Attributes(parts[..|parts| - 1]), LOWER_R, nonce);
  }

  lemma HastyReplies(c: Crypto, m1: Bytes, clientNonce: Bytes, nonce: Bytes, salt: Bytes, iterations: nat)
    requires var parts := ParseAttributes(m1); [LOWER_R] in parts && parts[[LOWER_R]] == clientNonce
    ensures HastyServer(c, nonce, salt, iterations)([m1]) ==
            Some(AuthResponse(true, JoinComma([Attribute(LOWER_R, clientNonce + nonce),
                                               Attribute(LOWER_S, c.encode(salt)),
                                               Attribute(LOWER_I, Digits(iterations))])))
  {
    assert [m1][0] == m1;
  }

  /** The client takes up any salt and any count. */
  lemma FirstIsAnswered(c: Crypto, username: Bytes, password: Bytes, clientNonce: Bytes, nonce: Bytes, salt: Bytes,
                        iterations: nat)
    requires Lawful(c) && COMMA !in clientNonce && COMMA !in nonce && iterations < TWO_63
    ensures AnswerFirst(c, username, password, clientNonce,
                        JoinComma([Attribute(LOWER_R, clientNonce + nonce), Attribute(LOWER_S, c.encode(salt)),
                                   Attribute(LOWER_I, Digits(iterations))])).Some?
  {
    var serverFirst := JoinComma([Attribute(LOWER_R, clientNonce + nonce), Attribute(LOWER_S, c.encode(salt)),
                                  Attribute(LOWER_I, Digits(iterations))]);
    ServerFirstRead(c, Account([], salt, iterations, [], []), clientNonce, nonce, serverFirst);
  }

  /** Such a server authenticates itself to every client, whatever name and password that has. */
  lemma UnverifiedSuccess(c: Crypto, username: Bytes, password: Bytes, random: Bytes, nonce: Bytes, salt: Bytes,
                          iterations: nat)
    requires Lawful(c) && COMMA !in nonce && iterations < TWO_63
    ensures var e := Dialogue(c, username, password, c.encode(random), HastyServer(c, nonce, salt, iterations));
            e.ok && |e.sent| == 1 && e.phase == ChallengeReceived
  {
    var clientNonce := c.encode(random);
    NonceRead(username, clientNonce);
    HastyReplies(c, ClientFirst(username, clientNonce), clientNonce, nonce, salt, iterations);
    FirstIsAnswered(c, username, password, clientNonce, nonce, salt, iterations);
  }

  /** An honest server for the account; the last answer says that it is done, or leaves that to the client. */
  function HonestServer(c: Crypto, account: Account, nonce: Bytes, tells: bool): seq<Bytes> -> Option<AuthResponse> {
    (sent: seq<Bytes>) =>
      if |sent| == 0 || |sent[0]| < 3 then None
      else
        match ServerFirst(c, account, sent[0], nonce)
        case None => None
        case Some(serverFirst) =>
          if |sent| == 1 then Some(AuthResponse(false, serverFirst))
          else
            match ServerFinal(c, account, sent[0], serverFirst, sent[1])
            case None => None
            case Some(final) => Some(AuthResponse(tells, final))
  }

  lemma DialogueCompletes(c: Crypto, username: Bytes, password: Bytes, clientNonce: Bytes,
                          server: seq<Bytes> -> Option<AuthResponse>, serverFirst: Bytes, final: AuthResponse)
    requires Lawful(c) && AnswerFirst(c, username, password, clientNonce, serverFirst).Some?
    requires server([ClientFirst(username, clientNonce)]) == Some(AuthResponse(false, serverFirst))
    requires var x := AnswerFirst(c, username, password, clientNonce, serverFirst).value;
             && server([ClientFirst(username, clientNonce), x.clientFinal]) == Some(final)
             && AcceptsFinal(c, x.serverKey, x.authMessage, final.challenge)
    ensures var e := Dialogue(c, username, password, clientNonce, server); e.ok && e.phase == Complete
  {
  }

  lemma HonestReplies(c: Crypto, account: Account, nonce: Bytes, tells: bool, m1: Bytes, m2: Bytes)
    requires |m1| >= 3 && ServerFirst(c, account, m1, nonce).Some?
    ensures var server, serverFirst := HonestServer(c, account, nonce, tells), ServerFirst(c, account, m1, nonce).value;
            && server([m1]) == Some(AuthResponse(false, serverFirst))
            && (ServerFinal(c, account, m1, serverFirst, m2).Some? ==>
                  server([m1, m2]) == Some(AuthResponse(tells, ServerFinal(c, account, m1, serverFirst, m2).value)))
  {
    assert [m1, m2][0] == m1 && [m1, m2][1] == m2;
  }

  lemma HonestServerCompletes(c: Crypto, username: Bytes, password: Bytes, random: Bytes, account: Account,
                              nonce: Bytes, tells: bool)
    requires Lawful(c) && PlainName(username) && COMMA !in nonce
    requires account == Enrolled(c, username, password, account.salt, account.iterations) && account.iterations < TWO_63
    ensures var e := Dialogue(c, username, password, c.encode(random), HonestServer(c, account, nonce, tells));
            e.ok && e.phase == Complete
  {
    var clientNonce := c.encode(random);
    var m1 := ClientFirst(username, clientNonce);
    ClientFirstRead(username, clientNonce);
    UsernameArrivesIff(username, clientNonce);
    var serverFirst := ServerFirst(c, account, m1, nonce).value;
    HonestRun(c, username, password, clientNonce, account, nonce, serverFirst);
    var m2 := AnswerFirst(c, username, password, clientNonce, serverFirst).value.clientFinal;
    var final := ServerFinal(c, account, m1, serverFirst, m2).value;
    HonestReplies(c, account, nonce, tells, m1, m2);
    DialogueCompletes(c, username, password, clientNonce, HonestServer(c, account, nonce, tells), serverFirst,
                      AuthResponse(tells, final));
  }

  /**
   * Against it, with the account's name and password, authentication succeeds and the mechanism is complete exactly
   * if the name needs no escapes.
   */
  lemma HonestServerCompletesIff(c: Crypto, username: Bytes, password: Bytes, random: Bytes, account: Account,
                                 nonce: Bytes, tells: bool)
    requires Lawful(c) && COMMA !in nonce
    requires account == Enrolled(c, username, password, account.salt, account.iterations) && account.iterations < TWO_63
    ensures var e := Dialogue(c, username, password, c.encode(random), HonestServer(c, account, nonce, tells));
            && (e.ok && e.phase == Complete <==> PlainName(username))
            && (!e.ok <==> !PlainName(username))
  {
    var clientNonce := c.encode(random);
    UsernameArrivesIff(username, clientNonce);
    if PlainName(username) {
      HonestServerCompletes(c, username, password, random, account, nonce, tells);
    } else {
      assert ServerFirst(c, account, ClientFirst(username, clientNonce), nonce).None?;
      assert HonestServer(c, account, nonce, tells)([ClientFirst(username, clientNonce)]).None?;
    }
  }
}
