/** The packets of send_iris.pl, the second implementation of the client. */
module PerlClient {
  import opened Gf2
  import opened Words
  import opened Text
  import opened Crc32
  import opened CrcTable
  import opened Frames
  import opened RecordFormat

  class Client {
    const table: array<nat>

    ghost predicate Valid()
      reads this, table
    {
      table.Length == 256 && forall i :: 0 <= i < 256 ==> table[i] == Entry(i)
    }

    /** The block that fills `@CRC32` when the script starts. */
    constructor ()
      ensures Valid() && fresh(table)
    {
      table := new nat[256](_ => 0);
      new;
      for i := 0 to 256
        invariant forall k :: 0 <= k < i ==> table[k] == Entry(k)
      {
        var x := PerlEntry(i);
        table[i] := x;
      }
    }

    /** `sub crc32`. */
    method Checksum(s: seq<byte>) returns (crc: uint32)
      requires Valid()
      ensures crc == Crc(s)
    {
      var reg: nat := 0xffffffff;
      for i := 0 to |s|
        invariant reg == Run(ONES, MessageBits(s[..i]))
      {
        LookupStep(s[..i], s[i], reg);
        assert s[..i + 1] == s[..i] + [s[i]];
        reg := Xor((reg / 256) % 0x100_0000, table[Xor(reg, s[i]) % 256]);
      }
      assert s[..|s|] == s;
      CrcFits(s);
      crc := Xor(reg, 0xffffffff);
    }

    /** `pack`, the CRC of the packed string, and `substr` to put it in front: byte for byte
        the frame the C client sends for the same record. */
    method Packet(ts: uint32, rc: uint16, host: seq<byte>, service: seq<byte>, output: seq<byte>)
      returns (pdu: seq<byte>)
      requires Valid()
      ensures pdu == Frame(ToPdu(Record(host, service, rc, output)).(ts := ts))
      ensures forall now :: Accepted(now, pdu) <==> Fresh(now, ts)
    {
      var z64 := PackZ(host, 64);
      var z128 := PackZ(service, 128);
      var z4096 := PackZ(output, 4096);
      pdu := Bytes32(Big, 0) + Bytes32(Big, ts) + Bytes16(Big, 1) + Bytes16(Big, rc) + (z64 + z128 + z4096);
      ghost var p := ToPdu(Record(host, service, rc, output)).(ts := ts, version := PROTOCOL_VERSION, crc := 0);
      assert pdu == Image(Big, p);
      ClearedImage(p);
      var crc := Checksum(pdu);
      FieldsOfImage(Big, p);
      FieldsOfImage(Big, p.(crc := crc));
      PatchField(Bytes32(Big, 0), Bytes32(Big, ts), Bytes16(Big, 1), Bytes16(Big, rc), z64 + z128 + z4096,
                 Bytes32(Big, crc), [0, 0]);
      pdu := Patch(pdu, 0, Bytes32(Big, crc));
      forall now ensures Accepted(now, pdu) <==> Fresh(now, ts) { PackThenUnpack(p, now); }
    }
  }

  /** The inner loop of the table block. */
  method PerlEntry(i: byte) returns (x: nat)
    ensures x == Entry(i)
  {
    x := i;
    for j := 0 to 8
      invariant Run(x, Zeros(8 - j)) == Entry(i)
    {
      RunZero(x, 8 - j);
      x := if x % 2 == 1 then Xor(x / 2, 0xedb88320) else x / 2;
    }
  }

  /** The `Z` template of `pack`: padded with NULs, always ending in one. */
  method PackZ(s: seq<byte>, n: nat) returns (z: seq<byte>)
    requires n > 0
    ensures z == Padded(s, n)
  {
    z := [];
    for i := 0 to n
      invariant z == Padded(s, n)[..i]
    {
      z := z + [if i < n - 1 && i < |s| then s[i] else 0];
    }
  }
}
