/** The version check of src/Wz.cpp: a rolling hash over the decimal text
    of the game version, and the one-byte check value folded from it that
    the archive header stores. */
module Version {
  import opened WzBase

  /** hashing(value, shift): the byte of value at bit position shift. */
  function Hashing(value: bv32, shift: nat): (r: bv32)
    requires shift < 32
    ensures r <= 0xFF
  {
    (value >> shift) & 0xFF
  }

  /** The four bytes hashing picks out are the whole word. */
  lemma HashingBytes(value: bv32)
    ensures value == (Hashing(value, 24) << 24) | (Hashing(value, 16) << 16) |
                     (Hashing(value, 8) << 8) | Hashing(value, 0)
  {
  }

  /** auto_hash and the AUTO_HASH macro: 0xFF XORed with the four bytes of
      value. (In the macro, & binds tighter than ^, so its last operand is
      the low byte, as in the function.) */
  function AutoHash(value: bv32): (r: bv32)
    ensures r <= 0xFF
  {
    0xFF ^ Hashing(value, 24) ^ Hashing(value, 16) ^ Hashing(value, 8) ^ (value & 0xFF)
  }

  /** XORing the check byte with the four bytes of the word gives 0xFF. */
  lemma AutoHashFold(value: bv32)
    ensures AutoHash(value) ^ Hashing(value, 24) ^ Hashing(value, 16) ^ Hashing(value, 8) ^ Hashing(value, 0) == 0xFF
  {
  }

  /** The decimal digit d as a character. */
  function Digit(d: nat): (c: char)
    requires d < 10
    ensures '0' <= c <= '9'
  {
    ('0' as int + d) as char
  }

  /** The decimal text of n without leading zeros. */
  function Decimal(n: nat): (s: seq<char>)
    ensures |s| >= 1 && forall k :: 0 <= k < |s| ==> '0' <= s[k] <= '9'
    ensures |s| > 1 ==> s[0] != '0'
  {
    if n < 10 then [Digit(n)] else Decimal(n / 10) + [Digit(n % 10)]
  }

  /** The value of a text of decimal digits. */
  function DecimalValue(s: seq<char>): int
  {
    if s == [] then 0 else 10 * DecimalValue(s[..|s| - 1]) + (s[|s| - 1] as int - '0' as int)
  }

  /** Reading the decimal text of n gives n back. */
  lemma {:induction false} DecimalRoundTrip(n: nat)
    ensures DecimalValue(Decimal(n)) == n
  {
    if n >= 10 {
      DecimalRoundTrip(n / 10);
      var s := Decimal(n);
      assert s[..|s| - 1] == Decimal(n / 10);
    }
  }

  /** std::to_string of a 32-bit signed value: a '-' before the digits of
      the magnitude for a negative value. */
  function ToString(v: int): (s: seq<char>)
    ensures |s| >= 1
    ensures v < 0 <==> s[0] == '-'
  {
    if v < 0 then ['-'] + Decimal(-v) else Decimal(v)
  }

  /** The version hash: from 0, h := 32 h + c + 1 for each character c, in
      32-bit arithmetic. */
  function VersionHash(s: seq<char>): (h: nat)
    ensures h < TWO32
  {
    if s == [] then 0 else (32 * VersionHash(s[..|s| - 1]) + s[|s| - 1] as int + 1) % TWO32
  }

  /** The check byte the header stores for a version. */
  function CheckByte(realVersion: int): (b: nat)
    ensures b < 256
  {
    AutoHash(VersionHash(ToString(realVersion)) as bv32) as nat
  }

  /** What get_version_hash returns: the hash of the version's text when
      encryptedVersion is its check byte, 0 otherwise. */
  function VersionCheck(encryptedVersion: int, realVersion: int): (r: nat)
    ensures r < TWO32
  {
    if encryptedVersion == CheckByte(realVersion) then VersionHash(ToString(realVersion)) else 0
  }

  /** Two residues that agree stay in agreement after one hash step. */
  lemma HashStepMod(v: int, u: nat, c: int)
    requires v % TWO32 == u
    ensures (32 * v + c + 1) % TWO32 == (32 * u + c + 1) % TWO32
  {
    var k := (v - u) / TWO32;
    assert v == u + k * TWO32;
    assert 32 * v + c + 1 == (32 * u + c + 1) + (32 * k) * TWO32;
  }

  /** get_version_hash: the loop accumulates the hash in a signed 32-bit
      variable, which wraps; the check compares encryptedVersion with the
      auto_hash of its unsigned reading. */
  method GetVersionHash(encryptedVersion: int, realVersion: int) returns (r: nat)
    requires IsI32(encryptedVersion) && IsI32(realVersion)
    ensures r == VersionCheck(encryptedVersion, realVersion)
  {
    var versionHash := 0;
    var versionString := ToString(realVersion);
    var i := 0;
    while i < |versionString|
      invariant 0 <= i <= |versionString| && IsI32(versionHash)
      invariant versionHash % TWO32 == VersionHash(versionString[..i])
    {
      assert versionString[..i + 1][..i] == versionString[..i];
      HashStepMod(versionHash, VersionHash(versionString[..i]), versionString[i] as int);
      versionHash := I32((32 * versionHash + versionString[i] as int + 1) % TWO32);
      i := i + 1;
    }
    assert versionString[..i] == versionString;
    var unsigned := versionHash % TWO32;
    var decryptedVersionNumber := AutoHash(unsigned as bv32) as int;
    if encryptedVersion == decryptedVersionNumber {
      return unsigned;
    }
    return 0;
  }

  /** The check byte a version produces is accepted, and the hash returned. */
  lemma CheckByteAccepted(realVersion: int)
    ensures VersionCheck(CheckByte(realVersion), realVersion) == VersionHash(ToString(realVersion))
  {
  }

  /** The check byte is a byte, so every value outside [0, 255] yields 0. */
  lemma OutOfByteRejected(encryptedVersion: int, realVersion: int)
    requires encryptedVersion < 0 || encryptedVersion > 255
    ensures VersionCheck(encryptedVersion, realVersion) == 0
  {
  }

  /** Version 83: the text "83" hashes to 1876 (0x754), whose check byte is
      172; so 172 is accepted with 1876 and 173 is rejected. */
  lemma Version83()
    ensures ToString(83) == ['8', '3']
    ensures VersionHash(ToString(83)) == 1876
    ensures CheckByte(83) == 172
    ensures VersionCheck(172, 83) == 1876 && VersionCheck(173, 83) == 0
  {
    assert ToString(83) == ['8', '3'];
    assert ['8', '3'][..1] == ['8'];
    assert VersionHash(['8']) == 57;
    assert VersionHash(['8', '3']) == 1876;
    assert AutoHash(1876) == 172;
  }
}
