/**
 * Stand-ins for the two foreign cryptographic libraries the login manager uses:
 * bcrypt (password hashing) and ed25519 (token signatures).  Each stand-in keeps
 * the property the server relies on and nothing of the cryptography itself:
 * a hash verifies exactly the passwords that give blowfish the same 72-byte key
 * as the one it was made from; a signature verifies under the key pair that
 * made it and for the message it was made over.
 */
module Crypto {
  import opened Wrappers


  newtype byte = b: int | 0 <= b < 256

  // ---------------------------------------------------------------------------
  // The bytes of a string

  /** The UTF-8 encoding of one character. */
  function CharBytes(c: char): (r: seq<byte>)
    ensures 1 <= |r| <= 4
    ensures |r| == 1 <==> c < 0x80 as char
    ensures 0 in r <==> c == 0 as char
  {
    var n := c as int;
    if n < 0x80 then [n as byte]
    else if n < 0x800 then [(0xC0 + n / 0x40) as byte, (0x80 + n % 0x40) as byte]
    else if n < 0x1_0000 then [(0xE0 + n / 0x1000) as byte, (0x80 + n / 0x40 % 0x40) as byte, (0x80 + n % 0x40) as byte]
    else [(0xF0 + n / 0x4_0000) as byte, (0x80 + n / 0x1000 % 0x40) as byte,
          (0x80 + n / 0x40 % 0x40) as byte, (0x80 + n % 0x40) as byte]
  }

  /** `[]byte(s)` in Go: the UTF-8 encoding of `s`, whose length is what `len(s)` gives. */
  function Utf8(s: string): (r: seq<byte>)
    ensures |s| <= |r| <= 4 * |s|
    ensures 0 in r <==> 0 as char in s
  {
    if s == [] then []
    else
      var rest := Utf8(s[1..]);
      assert 0 as char in s <==> s[0] == 0 as char || 0 as char in s[1..];
      CharBytes(s[0]) + rest
  }

  /** A string of ASCII characters encodes as one byte per character. */
  lemma {:induction false} AsciiUtf8Length(s: string)
    requires forall i :: 0 <= i < |s| ==> s[i] < 0x80 as char
    ensures |Utf8(s)| == |s|
  {
    if s != [] {
      assert forall i :: 0 <= i < |s[1..]| ==> s[1..][i] == s[i + 1];
      AsciiUtf8Length(s[1..]);
    }
  }

  // ---------------------------------------------------------------------------
  // bcrypt

  /** Every hash bcrypt.GenerateFromPassword makes at bcrypt.DefaultCost (10) starts so. */
  const BcryptPrefix: string := "$2a$10$"

  /** bcrypt stores a 16-byte salt as 22 characters of its base-64 alphabet. */
  const SaltLength: nat := 22

  /** The key length of blowfish's key schedule, and the longest password GenerateFromPassword accepts. */
  const MaxPasswordBytes: nat := 72

  type Salt = s: string | |s| == SaltLength witness "0000000000000000000000"

  datatype HashError = PasswordTooLong

  /**
   * The 72 bytes the key schedule reads: the password's bytes followed by a
   * NUL, repeated cyclically.  Only these bytes reach the digest.
   */
  function BcryptKey(password: seq<byte>): (k: seq<byte>)
    ensures |k| == MaxPasswordBytes
  {
    var cycle := password + [0];
    seq(MaxPasswordBytes, i requires 0 <= i < MaxPasswordBytes => cycle[i % |cycle|])
  }

  lemma ModBelow(i: int, n: int)
    requires 0 <= i < n
    ensures i % n == i
  {
  }

  /** Up to the password's length the key is the password, and the NUL follows it. */
  lemma KeyStartsWithPassword(p: seq<byte>, i: nat)
    requires i <= |p| && i < MaxPasswordBytes
    ensures BcryptKey(p)[i] == if i < |p| then p[i] else 0
  {
    ModBelow(i, |p| + 1);
  }

  /** Two passwords bcrypt cannot tell apart: they give the same key. */
  predicate SameBcryptKey(p: string, q: string)
  {
    BcryptKey(Utf8(p)) == BcryptKey(Utf8(q))
  }

  /** The key as text, one character per byte, the place of the digest in the stored hash. */
  function KeyText(k: seq<byte>): (t: string)
    ensures |t| == |k|
    ensures forall i :: 0 <= i < |k| ==> t[i] as int == k[i] as int
  {
    seq(|k|, i requires 0 <= i < |k| => (k[i] as int) as char)
  }

  /**
   * The stored form of a password: the prefix, the salt, and (where bcrypt has
   * a one-way digest of the key) the key itself.  Only CompareHashAndPassword
   * looks inside.
   */
  function Hash(password: string, salt: Salt): (h: string)
    ensures |h| == |BcryptPrefix| + SaltLength + MaxPasswordBytes
    ensures h[..|BcryptPrefix|] == BcryptPrefix
  {
    BcryptPrefix + salt + KeyText(BcryptKey(Utf8(password)))
  }

  /** bcrypt.CompareHashAndPassword(hash, password) == nil: the hash is well-formed and its digest is the key's. */
  predicate CompareHashAndPassword(hash: string, password: string)
  {
    && |hash| >= |BcryptPrefix| + SaltLength
    && hash[..|BcryptPrefix|] == BcryptPrefix
    && hash[|BcryptPrefix| + SaltLength..] == KeyText(BcryptKey(Utf8(password)))
  }

  /** A hash verifies exactly the passwords that give the same key as the one it was made from. */
  lemma HashVerifiesSameKey(password: string, salt: Salt, candidate: string)
    ensures CompareHashAndPassword(Hash(password, salt), candidate) <==> SameBcryptKey(candidate, password)
  {
    var h := Hash(password, salt);
    var k1 := BcryptKey(Utf8(password));
    var k2 := BcryptKey(Utf8(candidate));
    assert h[..|BcryptPrefix|] == BcryptPrefix;
    assert h[|BcryptPrefix| + SaltLength..] == KeyText(k1);
    if KeyText(k2) == KeyText(k1) {
      assert forall i :: 0 <= i < MaxPasswordBytes ==> k2[i] == k1[i] by {
        forall i | 0 <= i < MaxPasswordBytes ensures k2[i] == k1[i] {
          assert KeyText(k2)[i] == KeyText(k1)[i];
        }
      }
    }
  }

  /**
   * On passwords of at most 72 bytes without a NUL the key determines the
   * bytes: such passwords share a key only when they are the same bytes.
   */
  lemma ShortKeyDeterminesPassword(p: seq<byte>, q: seq<byte>)
    requires |p| <= MaxPasswordBytes && |q| <= MaxPasswordBytes && 0 !in p && 0 !in q
    requires BcryptKey(p) == BcryptKey(q)
    ensures p == q
  {
    forall i | 0 <= i < |p| && i < |q| ensures p[i] == q[i] {
      KeyStartsWithPassword(p, i);
      KeyStartsWithPassword(q, i);
    }
    if |p| < |q| {
      KeyStartsWithPassword(p, |p|);
      KeyStartsWithPassword(q, |p|);
    } else if |q| < |p| {
      KeyStartsWithPassword(p, |q|);
      KeyStartsWithPassword(q, |q|);
    }
  }

  /** For passwords of at most 72 bytes without a NUL, sharing a key is having the same bytes. */
  lemma SameKeyIffSameBytes(p: string, q: string)
    requires |Utf8(p)| <= MaxPasswordBytes && |Utf8(q)| <= MaxPasswordBytes
    requires 0 as char !in p && 0 as char !in q
    ensures SameBcryptKey(p, q) <==> Utf8(p) == Utf8(q)
  {
    if SameBcryptKey(p, q) {
      ShortKeyDeterminesPassword(Utf8(p), Utf8(q));
    }
  }

  /** Beyond 72 bytes only the first 72 count: a longer password's key is its prefix. */
  lemma LongPasswordKeyIsPrefix(p: seq<byte>)
    requires |p| >= MaxPasswordBytes
    ensures BcryptKey(p) == p[..MaxPasswordBytes]
  {
    forall i | 0 <= i < MaxPasswordBytes ensures BcryptKey(p)[i] == p[i] {
      KeyStartsWithPassword(p, i);
    }
  }

  /** A positive multiple of `n` is at least `n`. */
  lemma {:induction false} MultipleAtLeast(k: int, n: int)
    requires k >= 1 && n > 0
    ensures k * n >= n
    decreases k
  {
    if k > 1 {
      MultipleAtLeast(k - 1, n);
      assert k * n == (k - 1) * n + n;
    }
  }

  /** Adding `n` leaves the remainder modulo `n` unchanged. */
  lemma ModShift(x: nat, n: int)
    requires n > 0
    ensures (x + n) % n == x % n
  {
    var q, r := x / n, x % n;
    var q', r' := (x + n) / n, (x + n) % n;
    var k := q' - q - 1;
    assert k * n == q' * n - q * n - n;
    assert k * n == r - r';
    if k >= 1 {
      MultipleAtLeast(k, n);
    }
  }

  /** The cycle of `p + [0] + p` is that of `p` twice, so both read the same at every position. */
  lemma {:induction false} DoubledCycleAgrees(cp: seq<byte>, cq: seq<byte>, i: nat)
    requires |cp| > 0 && cq == cp + cp
    ensures cq[i % |cq|] == cp[i % |cp|]
    decreases i
  {
    var n := |cp|;
    if i < n {
      ModBelow(i, n);
      ModBelow(i, 2 * n);
    } else if i < 2 * n {
      ModBelow(i, 2 * n);
      ModBelow(i - n, n);
      ModShift(i - n, n);
    } else {
      ModShift(i - 2 * n, 2 * n);
      ModShift(i - 2 * n, n);
      ModShift(i - n, n);
      DoubledCycleAgrees(cp, cq, i - 2 * n);
    }
  }

  /** Encoding distributes over concatenation. */
  lemma {:induction false} Utf8Append(s: string, t: string)
    ensures Utf8(s + t) == Utf8(s) + Utf8(t)
  {
    if s == [] {
      assert s + t == t;
    } else {
      assert (s + t)[1..] == s[1..] + t;
      Utf8Append(s[1..], t);
      assert (s + t)[0] == s[0];
      assert Utf8(s + t) == CharBytes(s[0]) + (Utf8(s[1..]) + Utf8(t));
    }
  }

  /**
   * A password followed by a NUL and itself again gives the key of the
   * password alone: both keys repeat `password + [0]`.
   */
  lemma NulRepeatKey(p: seq<byte>)
    ensures BcryptKey(p) == BcryptKey(p + [0] + p)
  {
    var q := p + [0] + p;
    var cp, cq := p + [0], q + [0];
    assert cq == cp + cp;
    forall i | 0 <= i < MaxPasswordBytes ensures BcryptKey(p)[i] == BcryptKey(q)[i] {
      DoubledCycleAgrees(cp, cq, i);
    }
  }

  /** So every password and the same text doubled around a NUL verify against each other's hashes. */
  lemma NulRepeatSharesKey(s: string)
    ensures SameBcryptKey(s, s + ['\0'] + s)
  {
    var u := Utf8(s);
    Utf8Append(s + ['\0'], s);
    Utf8Append(s, ['\0']);
    assert Utf8(['\0']) == [0] by {
      assert ['\0'][1..] == [];
    }
    assert Utf8(s + ['\0'] + s) == u + [0] + u;
    NulRepeatKey(u);
  }


  /**
   * bcrypt.GenerateFromPassword: passwords over 72 bytes are refused; any
   * other gets a freshly salted hash that verifies the passwords with its key.
   */
  method GenerateFromPassword(password: string) returns (r: Result<string, HashError>)
    ensures r.Err? <==> |Utf8(password)| > MaxPasswordBytes
    ensures r.Ok? ==> forall other :: CompareHashAndPassword(r.value, other) <==> SameBcryptKey(other, password)
  {
    if |Utf8(password)| > MaxPasswordBytes {
      return Err(PasswordTooLong);
    }
    assert |"0000000000000000000000"| == SaltLength;
    var salt: string :| |salt| == SaltLength;
    var hash := Hash(password, salt);
    forall other ensures CompareHashAndPassword(hash, other) <==> SameBcryptKey(other, password) {
      HashVerifiesSameKey(password, salt, other);
    }
    r := Ok(hash);
  }

  /** An ed25519 key pair; `id` tells apart the pairs generated in different processes. */
  datatype KeyPair = KeyPair(id: nat)

  datatype PublicKey = PublicKey(id: nat)

  function Public(keys: KeyPair): PublicKey
  {
    PublicKey(keys.id)
  }

  /** A signature over `message` made with the secret half of key pair `signer`. */
  datatype Signature<M> = Signature(signer: nat, message: M)

  function Sign<M>(keys: KeyPair, message: M): Signature<M>
  {
    Signature(keys.id, message)
  }

  predicate Verify<M(==)>(key: PublicKey, message: M, signature: Signature<M>)
  {
    signature.signer == key.id && signature.message == message
  }

  /** What the token code relies on: a signature verifies exactly when it is ours, over this message. */
  lemma VerifyIffSigned<M>(keys: KeyPair, message: M, signature: Signature<M>)
    ensures Verify(Public(keys), message, signature) <==> signature == Sign(keys, message)
  {
  }
}
