/** Addresses: version, account and checksum in base 58 (src/xrp/xrp_helpers.c). */
module Address {
  import opened Fields
  import opened Base58

  /** The digests are parameters: only their sizes matter here. */
  type Digest = bytes: seq<byte> | |bytes| == 32 witness seq(32, _ => 0)
  type AccountBytes = bytes: seq<byte> | |bytes| == 20 witness seq(20, _ => 0)

  const CHECKSUM_SIZE: nat := 4

  datatype Option<T> = None | Some(value: T)

  function VersionBytes(version: nat): (bytes: seq<byte>)
    requires version < 0x1_0000
    ensures |bytes| == if version > 255 then 2 else 1
  {
    if version > 255 then [version / 256, version % 256] else [version]
  }

  function Checksum(sha256: seq<byte> -> Digest, bytes: seq<byte>): (sum: seq<byte>)
    ensures |sum| == CHECKSUM_SIZE
  {
    sha256(sha256(bytes))[..CHECKSUM_SIZE]
  }

  function AddressBytes(sha256: seq<byte> -> Digest, version: nat, account: AccountBytes): (bytes: seq<byte>)
    requires version < 0x1_0000
    ensures |bytes| == |VersionBytes(version)| + 24
  {
    var body := VersionBytes(version) + account;
    body + Checksum(sha256, body)
  }

  function AddressText(sha256: seq<byte> -> Digest, version: nat, account: AccountBytes): (text: string)
    requires version < 0x1_0000
  {
    Encode(AddressBytes(sha256, version, account))
  }

  /** An address names one account and one version. */
  lemma AddressNamesOneAccount(sha256: seq<byte> -> Digest, version: nat, account: AccountBytes,
                               version': nat, account': AccountBytes)
    requires version < 0x1_0000 && version' < 0x1_0000
    requires AddressText(sha256, version, account) == AddressText(sha256, version', account')
    ensures version == version' && account == account'
  {
    var bytes, bytes' := AddressBytes(sha256, version, account), AddressBytes(sha256, version', account');
    EncodeInjective(bytes, bytes');
    var n := |VersionBytes(version)|;
    assert bytes[..n] == VersionBytes(version) && bytes'[..n] == VersionBytes(version');
    assert bytes[n..n + 20] == account && bytes'[n..n + 20] == account';
    assert bytes[0] == VersionBytes(version)[0] && bytes'[0] == VersionBytes(version')[0];
    if n == 2 {
      assert bytes[1] == VersionBytes(version)[1] && bytes'[1] == VersionBytes(version')[1];
    }
  }

  /** What an address holds: the version, in one byte up to 255 and else in two, the
      account, and the first four bytes of the digest of the digest of both. */
  lemma AddressHolds(sha256: seq<byte> -> Digest, version: nat, account: AccountBytes)
    requires version < 0x1_0000
    ensures var body := (if version <= 255 then [version] else [version / 256, version % 256]) + account;
      Decode(AddressText(sha256, version, account)) == body + sha256(sha256(body))[..4]
  {
    DecodeEncode(AddressBytes(sha256, version, account));
  }

  lemma AddressIsNotEmpty(sha256: seq<byte> -> Digest, version: nat, account: AccountBytes)
    requires version < 0x1_0000
    ensures AddressText(sha256, version, account) != ""
  {
    DecodeEncode(AddressBytes(sha256, version, account));
    DecodeEncode([]);
    assert Encode([]) == "";
  }

  /** The calls of the device's hash functions, each of which may fail. */
  datatype HashCall = KeyHash | FirstSum | SecondSum

  /** `xrp_public_key_to_encoded_base58`: exactly one of key and account must be
      given, and every hash that is needed must work. */
  method ToAddress(sha256: seq<byte> -> Digest, hash160: seq<byte> -> AccountBytes, works: HashCall -> bool,
                   pubkey: Option<seq<byte>>, account: Option<AccountBytes>, out: array?<char>, version: nat)
    returns (length: nat)
    requires version < 0x1_0000 && (out != null ==> out.Length == ADDRESS_SIZE)
    modifies out
    ensures length == 0 <==>
      || out == null || pubkey.None? == account.None?
      || (pubkey.Some? && !works(KeyHash)) || !works(FirstSum) || !works(SecondSum)
    ensures length > 0 ==>
      var named := if pubkey.Some? then hash160(pubkey.value) else account.value;
      length < ADDRESS_SIZE && out[..length] == AddressText(sha256, version, named)
  {
    if out == null || pubkey.None? == account.None? {
      return 0;
    }
    var tmp := if version > 255 then [version / 256, version % 256] else [version];
    var named: seq<byte> := [];
    if pubkey.Some? {
      if !works(KeyHash) {
        return 0;
      }
      named := hash160(pubkey.value);
    }
    if account.Some? {
      named := account.value;
    }
    tmp := tmp + named;
    if !works(FirstSum) || !works(SecondSum) {
      return 0;
    }
    tmp := tmp + sha256(sha256(tmp))[..CHECKSUM_SIZE];
    assert tmp == AddressBytes(sha256, version, named);
    AddressIsNotEmpty(sha256, version, named);
    length := EncodeAddress(tmp, out);
  }
}
