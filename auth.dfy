/** Users and salted password hashing (src/auth.rs).

    SHA-512 (`Sha512::digest`) is a library this model does not contain: it
    appears as a parameter `sha512` of type `Digest`, an arbitrary but
    deterministic function on byte strings. The random generator that fills
    the salt is likewise a parameter `rng`, the stream of bytes it yields. */
module Auth {
  import opened Base

  /** Length of a password salt, in bytes. */
  const SALT_LENGTH: nat := 16

  type Digest = seq<u8> -> seq<u8>

  datatype UserRole = Admin | General

  datatype User = User(
    role: UserRole,
    username: string,
    passwordSalt: seq<u8>,
    passwordHash: seq<u8>)

  /* ---------- `String::as_bytes`: the UTF-8 encoding of a string ---------- */

  function EncodeChar(c: char): (r: seq<u8>)
    ensures 1 <= |r| <= 4
  {
    var n := c as int;
    if n < 0x80 then [n]
    else if n < 0x800 then [0xC0 + n / 0x40, 0x80 + n % 0x40]
    else if n < 0x1_0000 then [0xE0 + n / 0x1000, 0x80 + (n / 0x40) % 0x40, 0x80 + n % 0x40]
    else [0xF0 + n / 0x4_0000, 0x80 + (n / 0x1000) % 0x40, 0x80 + (n / 0x40) % 0x40, 0x80 + n % 0x40]
  }

  /** The number of bytes of the encoding that starts with lead byte `b`. */
  function SequenceLength(b: u8): nat
  {
    if b < 0x80 then 1 else if b < 0xE0 then 2 else if b < 0xF0 then 3 else 4
  }

  /** Every character takes one to four bytes. */
  function Utf8(s: string): (r: seq<u8>)
    ensures |s| <= |r| <= 4 * |s|
  {
    if s == [] then [] else EncodeChar(s[0]) + Utf8(s[1..])
  }

  /** A password of ASCII characters is encoded as its character codes,
      one byte each. */
  lemma {:induction false} Utf8Ascii(s: string)
    requires forall i :: 0 <= i < |s| ==> s[i] as int < 0x80
    ensures |Utf8(s)| == |s|
    ensures forall i :: 0 <= i < |s| ==> Utf8(s)[i] == s[i] as int
  {
    if s != [] {
      Utf8Ascii(s[1..]);
      forall i | 0 < i < |s| ensures Utf8(s)[i] == s[i] as int {
        assert s[i] == s[1..][i - 1];
      }
    }
  }

  lemma EncodeCharLead(c: char)
    ensures SequenceLength(EncodeChar(c)[0]) == |EncodeChar(c)|
  {
  }

  /** The code point an encoding of one character stands for. */
  function DecodeChar(b: seq<u8>): int
    requires 1 <= |b| <= 4
  {
    if |b| == 1 then b[0]
    else if |b| == 2 then (b[0] as int - 0xC0) * 0x40 + (b[1] as int - 0x80)
    else if |b| == 3 then (b[0] as int - 0xE0) * 0x1000 + (b[1] as int - 0x80) * 0x40 + (b[2] as int - 0x80)
    else (b[0] as int - 0xF0) * 0x4_0000 + (b[1] as int - 0x80) * 0x1000 + (b[2] as int - 0x80) * 0x40 + (b[3] as int - 0x80)
  }

  /** Decoding the encoding of a character gives back its code point: each
      branch of `EncodeChar` keeps all the bits, six at a time. */
  lemma DecodeEncodeChar(c: char)
    ensures DecodeChar(EncodeChar(c)) == c as int
  {
    var n := c as int;
    var q1, q2 := n / 0x40, n / 0x1000;
    assert n == 0x40 * q1 + n % 0x40;
    assert q1 == 0x40 * q2 + q1 % 0x40;
    assert q2 == 0x40 * (q2 / 0x40) + q2 % 0x40;
    assert q2 / 0x40 == n / 0x4_0000;
  }

  /** Different characters have different encodings. */
  lemma EncodeCharInjective(c: char, d: char)
    requires EncodeChar(c) == EncodeChar(d)
    ensures c == d
  {
    DecodeEncodeChar(c);
    DecodeEncodeChar(d);
  }

  /** No two strings have the same encoding: the encoding of the first
      character is recovered from its lead byte, then the rest by induction. */
  lemma {:induction false} Utf8Injective(s: string, t: string)
    requires Utf8(s) == Utf8(t)
    ensures s == t
  {
    if s != [] && t != [] {
      var a, b := EncodeChar(s[0]), EncodeChar(t[0]);
      EncodeCharLead(s[0]);
      EncodeCharLead(t[0]);
      assert a[0] == Utf8(s)[0] == Utf8(t)[0] == b[0];
      assert a == Utf8(s)[..|a|] == Utf8(t)[..|b|] == b;
      EncodeCharInjective(s[0], t[0]);
      assert Utf8(s[1..]) == Utf8(s)[|a|..] == Utf8(t)[|b|..] == Utf8(t[1..]);
      Utf8Injective(s[1..], t[1..]);
    }
  }

  /* ---------- the salted hash ---------- */

  /** The bytes fed to the digest by `get_salted_hash`: a copy of the salt
      extended with the password's bytes. */
  function SaltedInput(password: string, salt: seq<u8>): (r: seq<u8>)
    ensures |r| == |salt| + |Utf8(password)|
    ensures r[..|salt|] == salt && r[|salt|..] == Utf8(password)
  {
    salt + Utf8(password)
  }

  /** With the salt length fixed, the digest input determines both the salt
      and the password. */
  lemma SaltedInputInjective(p: string, s: seq<u8>, q: string, t: seq<u8>)
    requires |s| == |t| && SaltedInput(p, s) == SaltedInput(q, t)
    ensures s == t && p == q
  {
    Utf8Injective(p, q);
  }

  /** `get_salted_hash`: the digest of the salt followed by the password's
      bytes. */
  function GetSaltedHash(password: string, salt: seq<u8>, sha512: Digest): (r: seq<u8>)
    ensures r == sha512(salt + Utf8(password))
  {
    sha512(SaltedInput(password, salt))
  }

  /** The salt `fill_bytes` writes into a zeroed buffer of `SALT_LENGTH`. */
  function FillSalt(rng: nat -> u8): (salt: seq<u8>)
    ensures |salt| == SALT_LENGTH
    ensures forall i :: 0 <= i < SALT_LENGTH ==> salt[i] == rng(i)
  {
    seq(SALT_LENGTH, i requires 0 <= i => rng(i))
  }

  /** `User::new`: the plaintext is kept only as its salted digest. */
  function NewUser(username: string, role: UserRole, password: string,
                   rng: nat -> u8, sha512: Digest): (u: User)
    ensures u.username == username && u.role == role
    ensures |u.passwordSalt| == SALT_LENGTH
    ensures u.passwordHash == sha512(u.passwordSalt + Utf8(password))
  {
    var salt := FillSalt(rng);
    User(role, username, salt, GetSaltedHash(password, salt, sha512))
  }

  /** `User::authenticate`: recompute the digest with the stored salt and
      compare. */
  function Authenticate(u: User, password: string, sha512: Digest): (ok: bool)
    ensures ok <==> u.passwordHash == sha512(u.passwordSalt + Utf8(password))
  {
    u.passwordHash == GetSaltedHash(password, u.passwordSalt, sha512)
  }

  /** A freshly created user authenticates with its own password, whatever
      the salt and the digest. */
  lemma NewThenAuthenticate(username: string, role: UserRole, password: string,
                            rng: nat -> u8, sha512: Digest)
    ensures Authenticate(NewUser(username, role, password, rng, sha512), password, sha512)
  {
  }

  ghost predicate Injective(sha512: Digest)
  {
    forall a, b :: sha512(a) == sha512(b) ==> a == b
  }

  /** If the digest has no collisions, a user created with `password`
      authenticates with no other password. */
  lemma OnlyOwnPasswordAuthenticates(username: string, role: UserRole, password: string,
                                     other: string, rng: nat -> u8, sha512: Digest)
    requires Injective(sha512)
    requires Authenticate(NewUser(username, role, password, rng, sha512), other, sha512)
    ensures other == password
  {
    var u := NewUser(username, role, password, rng, sha512);
    assert sha512(SaltedInput(password, u.passwordSalt)) == sha512(SaltedInput(other, u.passwordSalt));
    SaltedInputInjective(password, u.passwordSalt, other, u.passwordSalt);
  }
}
