/** lib/utilities/password.js: the `{SSHA256}` salted-hash scheme and its
    plain-text fallback. SHA-256, the UTF-8 encoding of the input string and
    base64 are foreign primitives and stay uninterpreted; the random salt
    bytes are an input. */
module Password {
  import opened Common

  type byte = x: int | 0 <= x < 256

  type Bytes = seq<byte>

  /** The foreign primitives the scheme is built from. */
  datatype Primitives = Primitives(
    sha256: Bytes -> Bytes,
    utf8: string -> Bytes,
    encode64: Bytes -> string,
    decode64: string -> Bytes)

  /** Decoding undoes encoding. */
  ghost predicate Base64RoundTrips(p: Primitives)
  {
    forall b :: p.decode64(p.encode64(b)) == b
  }

  const Prefix: string := "{SSHA256}"

  // ---------------------------------------------------------------------------
  // Buffer helpers

  /** A relative index of `TypedArray.prototype.subarray`: a negative index
      counts from the end, and the result is clamped to `[0, len]`. */
  function RelIndex(i: int, len: nat): (r: nat)
    ensures r <= len
    ensures 0 <= i <= len ==> r == i
    ensures -(len as int) <= i < 0 ==> r as int == len as int + i
  {
    if i < 0 then (if len + i < 0 then 0 else len + i)
    else if i < len then i
    else len
  }

  /** `b.subarray(start, end)`. */
  function Subarray(b: Bytes, start: int, end: int): (r: Bytes)
    ensures |r| <= |b|
  {
    var s := RelIndex(start, |b|);
    var e := RelIndex(end, |b|);
    if s <= e then b[s..e] else []
  }

  /** The two pieces validation cuts a decoded secret into, stored digest
      then salt, always make up the whole buffer; the salt is the last eight
      bytes whenever there are at least eight. */
  lemma PayloadPieces(b: Bytes)
    ensures Subarray(b, 0, |b| - 8) + Subarray(b, |b| - 8, |b|) == b
    ensures |b| >= 8 ==> Subarray(b, |b| - 8, |b|) == b[|b| - 8..] && Subarray(b, 0, |b| - 8) == b[..|b| - 8]
  {
    var cut := RelIndex(|b| - 8, |b|);
    assert Subarray(b, 0, |b| - 8) == b[..cut];
    assert Subarray(b, |b| - 8, |b|) == b[cut..];
    assert b[..cut] + b[cut..] == b;
  }

  function HexDigit(d: nat): (r: char)
    requires d < 16
  {
    if d < 10 then ('0' as int + d) as char else ('a' as int + d - 10) as char
  }

  /** `buf.toString('hex')`: two lower-case hex digits per byte. */
  function Hex(b: Bytes): (r: string)
    ensures |r| == 2 * |b|
  {
    if |b| == 0 then "" else [HexDigit(b[0] / 16), HexDigit(b[0] % 16)] + Hex(b[1..])
  }

  /** Comparing hex renderings is comparing the bytes. */
  lemma {:induction false} HexInjective(a: Bytes, b: Bytes)
    requires Hex(a) == Hex(b)
    ensures a == b
  {
    if |a| > 0 {
      var ha, hb := Hex(a), Hex(b);
      assert ha[0] == hb[0] && ha[1] == hb[1];
      assert a[0] / 16 == b[0] / 16 && a[0] % 16 == b[0] % 16;
      assert a[0] == b[0];
      assert Hex(a[1..]) == ha[2..] == hb[2..] == Hex(b[1..]);
      HexInjective(a[1..], b[1..]);
      assert a == [a[0]] + a[1..] && b == [b[0]] + b[1..];
    }
  }

  // ---------------------------------------------------------------------------
  // validateUserPassword

  function HasPrefix(secret: string): bool
  {
    Take(secret, 9) == Prefix
  }

  /** `validateUserPassword(secret, input)`. */
  function ValidateUserPassword(p: Primitives, secret: string, input: string): bool
  {
    if HasPrefix(secret) then
      var secbin := p.decode64(Drop(secret, 9));
      var userpw := Hex(Subarray(secbin, 0, |secbin| - 8));
      var salt := Subarray(secbin, |secbin| - 8, |secbin|);
      var inputpw := Hex(p.sha256(p.utf8(input) + salt));
      inputpw == userpw
    else
      secret == input
  }

  /** What validation means: a secret that begins with exactly `{SSHA256}`
      is accepted iff the hash of the input followed by the trailing salt
      equals the leading digest; any other secret is compared as plain
      text. */
  lemma ValidateMeaning(p: Primitives, secret: string, input: string)
    ensures HasPrefix(secret) ==>
              var secbin := p.decode64(secret[9..]);
              var cut := RelIndex(|secbin| - 8, |secbin|);
              (ValidateUserPassword(p, secret, input) <==> p.sha256(p.utf8(input) + secbin[cut..]) == secbin[..cut])
    ensures !HasPrefix(secret) ==> (ValidateUserPassword(p, secret, input) <==> secret == input)
  {
    if HasPrefix(secret) {
      var secbin := p.decode64(Drop(secret, 9));
      var cut := RelIndex(|secbin| - 8, |secbin|);
      assert Subarray(secbin, 0, |secbin| - 8) == secbin[..cut];
      assert Subarray(secbin, |secbin| - 8, |secbin|) == secbin[cut..];
      var h := p.sha256(p.utf8(input) + secbin[cut..]);
      if Hex(h) == Hex(secbin[..cut]) {
        HexInjective(h, secbin[..cut]);
      }
    }
  }

  /** The prefix test is exact and case-sensitive. */
  lemma PrefixCaseSensitive()
    ensures !HasPrefix("{ssha256}abc") && HasPrefix("{SSHA256}abc")
  {
    assert Take("{ssha256}abc", 9)[1] == 's';
  }

  // ---------------------------------------------------------------------------
  // storeUserPassword

  /** The stored form of `input` under `salt`: the prefix, then base64 of
      the digest of input-then-salt followed by the salt. */
  function Stored(p: Primitives, input: string, salt: Bytes): string
  {
    Prefix + p.encode64(p.sha256(p.utf8(input) + salt) + salt)
  }

  /** The salt drawn from eight random bytes. */
  function SaltOf(draw: nat -> byte): (r: Bytes)
    ensures |r| == 8
    ensures forall i :: 0 <= i < 8 ==> r[i] == draw(i)
  {
    seq(8, i requires 0 <= i < 8 => draw(i))
  }

  /** `storeUserPassword(input)`; `draw(i)` is the i-th random byte. The
      write into the digest after the concatenation leaves the result
      alone. */
  method StoreUserPassword(p: Primitives, input: string, draw: nat -> byte) returns (pw: string)
    ensures pw == Stored(p, input, SaltOf(draw))
    ensures HasPrefix(pw)
  {
    var salt := new byte[8];
    for i := 0 to 8
      invariant salt[..i] == SaltOf(draw)[..i]
    {
      salt[i] := draw(i);
    }
    assert salt[..] == salt[..8] && SaltOf(draw)[..8] == SaltOf(draw);
    var digest := p.sha256(p.utf8(input) + salt[..]);
    var digestBuf := new byte[|digest|](i requires 0 <= i < |digest| => digest[i]);
    assert digestBuf[..] == digest;
    var hashbin := digestBuf[..] + salt[..];
    assert hashbin == p.sha256(p.utf8(input) + SaltOf(draw)) + SaltOf(draw);
    // digest.write(salt.toString('hex'), 'hex'): the salt over the start of
    // the digest buffer, after `hashbin` was copied out of it
    var j := 0;
    while j < 8 && j < digestBuf.Length
      invariant 0 <= j <= 8 && j <= digestBuf.Length
      invariant forall k :: 0 <= k < j ==> digestBuf[k] == salt[k]
      invariant forall k :: j <= k < digestBuf.Length ==> digestBuf[k] == digest[k]
    {
      digestBuf[j] := salt[j];
      j := j + 1;
    }
    pw := Prefix + p.encode64(hashbin);
    assert Take(pw, 9) == Prefix;
  }

  /** Round trip: the stored form of a password validates that password,
      whatever the salt. */
  lemma RoundTrip(p: Primitives, input: string, salt: Bytes)
    requires Base64RoundTrips(p)
    requires |salt| == 8
    ensures ValidateUserPassword(p, Stored(p, input, salt), input)
  {
    var s := Stored(p, input, salt);
    var payload := p.sha256(p.utf8(input) + salt) + salt;
    assert Take(s, 9) == Prefix && Drop(s, 9) == p.encode64(payload);
    assert p.decode64(p.encode64(payload)) == payload;
    PayloadPieces(payload);
    assert payload[|payload| - 8..] == salt;
  }

  /** The stored form of `pw` accepts exactly the inputs whose salted hash
      collides with that of `pw`. */
  lemma StoredAccepts(p: Primitives, pw: string, input: string, salt: Bytes)
    requires Base64RoundTrips(p)
    requires |salt| == 8
    ensures ValidateUserPassword(p, Stored(p, pw, salt), input) <==>
              p.sha256(p.utf8(input) + salt) == p.sha256(p.utf8(pw) + salt)
  {
    var s := Stored(p, pw, salt);
    var payload := p.sha256(p.utf8(pw) + salt) + salt;
    assert Take(s, 9) == Prefix && s[9..] == p.encode64(payload);
    assert p.decode64(p.encode64(payload)) == payload;
    ValidateMeaning(p, s, input);
    assert payload[|payload| - 8..] == salt;
    assert payload[..|payload| - 8] == p.sha256(p.utf8(pw) + salt);
  }
}
