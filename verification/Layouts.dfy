/** The byte layouts themselves, where every number takes one byte: what writer and reader would still agree on if
    both changed. */
module Layouts {
  import opened Keys
  import opened LogFormat
  import opened Varints
  import opened Blocks
  import opened EditCodec
  import opened WriteBatches
  import opened EditErrors
  import Seqs

  // ----- Manifest records

  /** The tags and the layout of the fields, for numbers and lengths of one byte. */
  lemma {:induction false} FieldLayout(n: byte, level: byte, key: Bytes)
    requires n < 128 && level < 128 && |key| < 128
    ensures ItemBytes(Comparator(key)) == [1, |key|] + key && ItemBytes(LogNumber(n)) == [2, n]
    ensures ItemBytes(NextFile(n)) == [3, n] && ItemBytes(LastSequence(n)) == [4, n]
    ensures ItemBytes(PrevLogNumber(n)) == [9, n]
    ensures ItemBytes(Pointer(level, key)) == [5, level, |key|] + key && ItemBytes(Deleted(level, n)) == [6, level, n]
  {
    OneByte(1);
    OneByte(2);
    OneByte(3);
    OneByte(4);
    OneByte(5);
    OneByte(6);
    OneByte(9);
    OneByte(n as int);
    OneByte(level as int);
    OneByte(|key|);
    hide Varint;
  }

  lemma {:induction false} FileLayout(level: byte, n: byte, size: byte, smallest: Bytes, largest: Bytes)
    requires level < 128 && n < 128 && size < 128 && |smallest| < 128 && |largest| < 128
    ensures ItemBytes(Added(level, Meta(n, size, smallest, largest))) ==
            [7] + ([level] + ([n] + ([size] + (([|smallest|] + smallest) + ([|largest|] + largest)))))
  {
    OneByte(7);
    OneByte(level as int);
    OneByte(n as int);
    OneByte(size as int);
    OneByte(|smallest|);
    OneByte(|largest|);
    hide Varint;
  }

  // ----- Log records

  /** A short record at the start of a log: masked checksum, length, type of a whole record, payload. */
  lemma {:induction false} RecordLayout(extend: Crc, r: Bytes)
    requires |r| <= 0x7FF9
    ensures EncodeAll(extend, [r]) == Fixed32(Mask(extend(extend(0, [1]), r))) + [|r| % 256, |r| / 256, 1] + r
  {
    hide Fixed32, Mask;
    assert [r][..0] == [] && EncodeAll(extend, []) == [];
    assert Padding(0) == [] && Start(0) == 0 && Leftover(0) == 32768 && r[..|r|] == r;
    assert EncodeAll(extend, [r]) == [] + Encode(extend, 0, r, true);
    Seqs.NothingBefore(Encode(extend, 0, r, true));
    Seqs.NothingBefore(Phys(extend, FULL, r));
    Seqs.NothingMore(Phys(extend, FULL, r));
  }

  /** Longer records are cut into pieces that fill their blocks; type codes say where a piece stands. */
  lemma {:induction false} PieceTypes()
    ensures TypeOf(true, true) == 1 && TypeOf(true, false) == 2 && TypeOf(false, false) == 3 && TypeOf(false, true) == 4
    ensures Mask(0) == 0xA282_EAD8 && Mask(1) == 0xA284_EAD8 && Mask(0x8000) == 0xA282_EAD9
  {
  }

  /** A first piece takes all that the block has room for. */
  lemma {:induction false} PieceFills(p: nat, r: Bytes)
    requires FragmentLength(p, r) < |r|
    ensures (Start(p) + 7 + FragmentLength(p, r)) % 32768 == 0
    ensures p <= Start(p) < p + 7 && (Start(p) != p ==> Start(p) % 32768 == 0)
  {
  }

  // ----- Write batches

  lemma {:induction false} UpdateLayout(key: Bytes, value: Bytes)
    requires |key| < 128 && |value| < 128
    ensures UpdateBytes(Update(Value, key, value)) == [1] + (([|key|] + key) + ([|value|] + value))
    ensures UpdateBytes(Update(Deletion, key, [])) == [0] + ([|key|] + key)
  {
    OneByte(|key|);
    OneByte(|value|);
    hide Varint;
  }

  // ----- Blocks

  /** Shared length, own length, value length, the key's own bytes, the value. */
  lemma {:induction false} EntryLayout(shared: nat, e: Pair)
    requires shared <= |e.key| < 128 && |e.value| < 128
    ensures EntryBytes(shared, e) == [shared] + ([|e.key| - shared] + ([|e.value|] + (e.key[shared..] + e.value)))
  {
    OneByte(shared);
    OneByte(|e.key| - shared);
    OneByte(|e.value|);
    hide Varint;
  }

  /** A block with one restart point ends with its offset and the count. */
  lemma {:induction false} TrailerLayout(buffer: Bytes)
    ensures Block(buffer, [0]) == buffer + ([0, 0, 0, 0] + [1, 0, 0, 0])
  {
    assert [0][..0] == [] && Fixed32s([0][..0]) == [];
    assert Fixed32(0) == [0, 0, 0, 0] && Fixed32(1) == [1, 0, 0, 0];
  }
}
