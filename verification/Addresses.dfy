/** Addresses (address/address.go): a prefix and a checked Base58 payload of one version byte and a
    20-byte key hash, beside the legacy development form. */
module Addresses {
  import opened Arith
  import opened Types
  import opened Base58
  import Text

  const ADDRESS_PREFIX: string := "iND"     // of every built-in network
  const LEGACY_PREFIX: string := "iND1"

  datatype Network = Network(prefix: string, version: Byte, legacyAllowed: bool)

  /** Hash160 of a public key, 20 bytes, as an arbitrary function. */
  datatype KeyHash = KeyHash(of: seq<Byte> -> seq<Byte>) {
    ghost predicate TwentyBytes() {
      forall k :: |of(k)| == 20
    }
  }

  datatype Payload = Legacy | Current(version: Byte, keyHash: seq<Byte>)

  predicate IsHex(c: char) {
    '0' <= c <= '9' || 'a' <= c <= 'f'
  }

  predicate IsLegacy(a: string) {
    && LEGACY_PREFIX <= a && |a| == |LEGACY_PREFIX| + 40
    && forall i :: |LEGACY_PREFIX| <= i < |a| ==> IsHex(a[i])
  }

  function EncodeAddress(sum: Checksum, hash: KeyHash, key: seq<Byte>, net: Network): Option<string> {
    if key == [] then None
    else
      var payload := [net.version] + hash.of(key);
      Some(net.prefix + Encoded(payload + sum.of(payload)))
  }

  /** The source's second prefix test, up to letter case, can never fail after the first. */
  function DecodeAddress(sum: Checksum, a: string, net: Network): Option<Payload> {
    if IsLegacy(a) then
      if net.legacyAllowed then Some(Legacy) else None
    else if !(net.prefix <= a) then None
    else
      var payload :- Checked(sum, a[|net.prefix|..]);
      if |payload| != 21 || payload[0] != net.version then None
      else Some(Current(payload[0], payload[1..]))
  }

  /** Bytes that do not start with 0 have an encoding that does not start with '1'. */
  lemma FirstCharacter(input: seq<Byte>)
    requires input != [] && input[0] != 0
    ensures Encoded(input) != "" && Encoded(input)[0] != '1'
  {
    RebaseRoundTrip(input, 256, 58);
    var ds := Rebase(input, 256, 58);
    ProperIsNumeral(input, 256);
    NumeralIsProper(Value(input, 256), 58);
    AlphabetSize();
    hide ALPHABET, Value, Numeral;
    assert ds == Numeral(Value(input, 256), 58);
    AlphabetIsDistinct(ds[0], 0);
  }

  /** No address of a built-in network, whose version bytes are not 0, reads as a legacy one. */
  lemma NeverLegacy(sum: Checksum, hash: KeyHash, key: seq<Byte>, net: Network)
    requires key != [] && net.version != 0 && net.prefix == ADDRESS_PREFIX
    ensures !IsLegacy(EncodeAddress(sum, hash, key, net).value)
  {
    var payload := [net.version] + hash.of(key);
    var body := Encoded(payload + sum.of(payload));
    FirstCharacter(payload + sum.of(payload));
    hide Encoded;
    assert (net.prefix + body)[3] == body[0] && LEGACY_PREFIX[3] == '1';
  }

  /** Decoding undoes encoding on the same network, and refuses the address on any other whose version
      byte differs. */
  lemma DecodeEncodedAddress(sum: Checksum, hash: KeyHash, key: seq<Byte>, net: Network, other: Network)
    requires sum.FourBytes() && hash.TwentyBytes() && key != []
    requires net.version != 0 && net.prefix == other.prefix == ADDRESS_PREFIX
    ensures
      var a := EncodeAddress(sum, hash, key, net).value;
      DecodeAddress(sum, a, other)
        == if other.version == net.version then Some(Current(net.version, hash.of(key))) else None
  {
    NeverLegacy(sum, hash, key, net);
    hide Encoded, Checked, IsLegacy;
    var payload := [net.version] + hash.of(key);
    var body := Encoded(payload + sum.of(payload));
    assert (other.prefix + body)[|other.prefix|..] == body;
    CheckedExactly(sum, body, payload);
    assert payload[1..] == hash.of(key);
  }

  /** A string is an address of a network exactly when it is legacy and those are allowed, or the
      encoding of a version byte and a 20-byte hash. */
  lemma DecodesExactly(sum: Checksum, a: string, net: Network)
    requires sum.FourBytes()
    ensures DecodeAddress(sum, a, net).Some? <==>
            if IsLegacy(a) then net.legacyAllowed
            else exists hash: seq<Byte> {:trigger [net.version] + hash} :: |hash| == 20
                   && var payload := [net.version] + hash; a == net.prefix + Encoded(payload + sum.of(payload))
  {
    hide Encoded, Checked, IsLegacy;
    if !IsLegacy(a) {
      if DecodeAddress(sum, a, net).Some? {
        var payload := Checked(sum, a[|net.prefix|..]).value;
        CheckedExactly(sum, a[|net.prefix|..], payload);
        assert payload == [net.version] + payload[1..];
        assert a == net.prefix + a[|net.prefix|..];
      }
      forall hash: seq<Byte> {:trigger [net.version] + hash}
        | |hash| == 20 && var payload := [net.version] + hash; a == net.prefix + Encoded(payload + sum.of(payload))
        ensures DecodeAddress(sum, a, net).Some?
      {
        var payload := [net.version] + hash;
        assert a[|net.prefix|..] == Encoded(payload + sum.of(payload));
        CheckedExactly(sum, a[|net.prefix|..], payload);
      }
    }
  }

  // ---------------------------------------------------------------- what consensus relies on

  lemma NotInAlphabet(c: char)
    requires c == '_' || Text.IsSpace(c)
    ensures IndexOf(c).None?
  {
    AlphabetSize();
    hide ALPHABET;
    var found := IndexFrom(ALPHABET, c, 0);
    if found.Some? {
      AlphabetIsRanges(found.value);
    }
  }

  /** The last character of a valid address is a letter or digit of its encoding. */
  lemma LastCharacter(sum: Checksum, a: string, net: Network)
    requires DecodeAddress(sum, a, net).Some?
    ensures a != "" && a[|a| - 1] != '_' && !Text.IsSpace(a[|a| - 1])
  {
    if !IsLegacy(a) {
      var body := a[|net.prefix|..];
      EncodeDecoded(body);
      NothingDecoded(body);
      hide Decoded, IndexOf, IsLegacy;
      assert body[|body| - 1] == a[|a| - 1];
      if a[|a| - 1] == '_' || Text.IsSpace(a[|a| - 1]) {
        NotInAlphabet(a[|a| - 1]);
      }
    }
  }

  lemma NothingDecoded(body: string)
    ensures body == "" ==> Decoded(body) == Some([])
  {
    assert Rebase([], 58, 256) == [];
  }

  lemma {:induction false} TrimLeftKeepsLast(s: string)
    requires s != "" && !Text.IsSpace(s[|s| - 1])
    ensures Text.TrimLeft(s) != "" && !Text.IsSpace(Text.TrimLeft(s)[0])
  {
    if Text.IsSpace(s[0]) {
      TrimLeftKeepsLast(s[1..]);
    }
  }

  lemma NotBlank(s: string)
    requires s != "" && !Text.IsSpace(s[|s| - 1])
    ensures !Text.Blank(s)
  {
    TrimLeftKeepsLast(s);
  }

  /** On every network, whatever its prefix and version: the fee pool's name is not an address, and no
      address is white space. */
  lemma AddressesAreSound(sum: Checksum, net: Network, env: Env)
    requires forall a :: env.ValidAddress(a) <==> DecodeAddress(sum, a, net).Some?
    ensures env.AddressesSound()
  {
    hide DecodeAddress, Text.Blank;
    if env.ValidAddress(FEE_COLLECTOR) {
      LastCharacter(sum, FEE_COLLECTOR, net);
    }
    forall a | env.ValidAddress(a)
      ensures !Text.Blank(a)
    {
      LastCharacter(sum, a, net);
      NotBlank(a);
    }
  }
}
