/** The bytes of the formats, spelt out: what a file written by one version of the code must be for another to read it
    (util/coding.cc, db/log_format.h, db/dbformat.h, db/write_batch.cc, db/version_edit.cc:14-24, table/format.h,
    table/filter_block.cc), and what the readers of batches and edits refuse. */
module FormatExamples {
  import opened DbFormat
  import opened Coding
  import LogFormat
  import Batch
  import EditCodec
  import BlockFormat
  import Separators
  import TableFile
  import FilterBlock
  import Bloom

  // ---- Numbers ----

  lemma NumberBytes()
    ensures Fixed32(0x0403_0201) == [1, 2, 3, 4] && Fixed64(0x0807_0605_0403_0201) == [1, 2, 3, 4, 5, 6, 7, 8]
    ensures Varint(0) == [0] && Varint(127) == [127] && Varint(128) == [0x80, 1] && Varint(300) == [0xac, 2]
    ensures Prefixed([0x61, 0x62]) == [2, 0x61, 0x62]
  {
  }

  lemma SmallVarint(n: nat)
    requires n < 128
    ensures Varint(n) == [n]
  {
  }

  // ---- The log ----

  lemma LogMask()
    ensures LogFormat.Mask(0) == 0xa282_ead8 && LogFormat.Mask(0x8000) == 0xa282_ead9
            && LogFormat.Mask(1) == 0xa284_ead8
  {
  }

  /** A record that fits its block is one piece of type 1: checksum, length, type, data. */
  lemma FullRecord(crc: LogFormat.Checksum, data: Bytes)
    requires |data| <= 32761
    ensures LogFormat.Emit(crc, 0, data, true) ==
            Fixed32(LogFormat.Mask(crc([1] + data))) + [|data| % 256, |data| / 256, 1] + data
  {
  }

  /** One that does not is cut at the end of a block of 32768 bytes, into pieces of types 2, 3 and 4. */
  lemma CutRecord(crc: LogFormat.Checksum, data: Bytes)
    requires 65522 < |data| <= 98283
    ensures var a, b, c := data[..32761], data[32761..65522], data[65522..];
            LogFormat.Emit(crc, 0, data, true) ==
            Piece(crc, 2, a) + (Piece(crc, 3, b) + Piece(crc, 4, c))
  {
    var rest := data[32761..];
    assert rest[..32761] == data[32761..65522] && rest[32761..] == data[65522..];
    LastPiece(crc, data[65522..]);
    MiddlePiece(crc, rest);
    FirstPiece(crc, data);
  }

  function Piece(crc: LogFormat.Checksum, t: Byte, data: Bytes): Bytes
    requires |data| <= 0xffff
  {
    Fixed32(LogFormat.Mask(crc([t] + data))) + [|data| % 256, |data| / 256, t] + data
  }

  lemma LastPiece(crc: LogFormat.Checksum, data: Bytes)
    requires |data| <= 32761
    ensures LogFormat.Emit(crc, 65536, data, false) == Piece(crc, 4, data)
  {
  }

  lemma MiddlePiece(crc: LogFormat.Checksum, data: Bytes)
    requires |data| > 32761
    ensures LogFormat.Emit(crc, 32768, data, false) ==
            Piece(crc, 3, data[..32761]) + LogFormat.Emit(crc, 65536, data[32761..], false)
  {
  }

  lemma FirstPiece(crc: LogFormat.Checksum, data: Bytes)
    requires |data| > 32761
    ensures LogFormat.Emit(crc, 0, data, true) ==
            Piece(crc, 2, data[..32761]) + LogFormat.Emit(crc, 32768, data[32761..], false)
  {
  }

  /** Fewer than seven bytes at the end of a block are zeros. */
  lemma Trailer(crc: LogFormat.Checksum, data: Bytes)
    ensures LogFormat.Emit(crc, 32762, data, true) == [0, 0, 0, 0, 0, 0] + LogFormat.Emit(crc, 32768, data, true)
  {
    assert LogFormat.Pad(6) == [0, 0, 0, 0, 0, 0];
  }

  // ---- Batches ----

  /** Put of "k" with "v" and Delete of "d", from sequence number 5 on. */
  lemma BatchExample()
    ensures Batch.BatchBytes(5, [Batch.PutCall([0x6b], [0x76]), Batch.DeleteCall([0x64])]) ==
            [5, 0, 0, 0, 0, 0, 0, 0] + [2, 0, 0, 0] + [1, 1, 0x6b, 1, 0x76] + [0, 1, 0x64]
  {
    var a, b := Batch.PutCall([0x6b], [0x76]), Batch.DeleteCall([0x64]);
    SmallVarint(1);
    assert [a, b][1..] == [b] && [b][1..] == [];
    assert Batch.CallBytes(a) == [1, 1, 0x6b, 1, 0x76] && Batch.CallBytes(b) == [0, 1, 0x64];
    assert Batch.CallsBytes([b]) == Batch.CallBytes(b);
    assert Batch.CallsBytes([a, b]) == Batch.CallBytes(a) + Batch.CallBytes(b);
    assert Fixed64(5) == [5, 0, 0, 0, 0, 0, 0, 0] && Fixed32(2) == [2, 0, 0, 0];
  }

  /** A batch whose count field is not the number of its calls is walked and then refused. */
  lemma CountIsChecked(sequence: nat, n: Word, cs: seq<Batch.Call>)
    requires sequence < WIDTH64 && (forall c | c in cs :: Batch.Short(c)) && |cs| < 0x8000_0000
    ensures Batch.IterateOf(Fixed64(sequence) + (Fixed32(n) + Batch.CallsBytes(cs))) ==
            Batch.Walked(cs, if n == |cs| then Batch.Fine else Batch.WrongCount)
  {
    Fixed64Trip(sequence);
    Batch.Parts(Fixed64(sequence), Fixed32(n), Batch.CallsBytes(cs));
    DecodeEncode32(n);
    Batch.WalkAll(cs);
  }

  /** A record of a kind that is neither a Put nor a Delete ends the walk. */
  lemma {:induction false} UnknownKind(cs: seq<Batch.Call>, t: Byte, rest: Bytes)
    requires (forall c | c in cs :: Batch.Short(c)) && t > 1
    ensures Batch.Walk(Batch.CallsBytes(cs) + ([t] + rest)) == Batch.Walked(cs, Batch.UnknownTag)
    decreases |cs|
  {
    var tail := [t] + rest;
    if cs == [] {
      assert Batch.CallsBytes(cs) + tail == tail;
    } else {
      var more := Batch.CallsBytes(cs[1..]);
      assert Batch.CallsBytes(cs) + tail == Batch.CallBytes(cs[0]) + (more + tail);
      UnknownKind(cs[1..], t, rest);
      Batch.WalkOne(cs[0], more + tail);
      assert [cs[0]] + cs[1..] == cs;
    }
  }

  // ---- Edits ----

  /** The field tags of db/version_edit.cc: 1 comparator, 2 log number, 3 next file, 4 last sequence, 5 compaction
      pointer, 6 deleted file, 7 new file, 9 previous log number. */
  lemma EditFields()
    ensures EditCodec.EncodeField(EditCodec.Comparator([0x63])) == [1, 1, 0x63]
    ensures EditCodec.EncodeField(EditCodec.LogNumber(12)) == [2, 12]
    ensures EditCodec.EncodeField(EditCodec.NextFile(13)) == [3, 13]
    ensures EditCodec.EncodeField(EditCodec.LastSequence(14)) == [4, 14]
    ensures EditCodec.EncodeField(EditCodec.Pointer(2, [0x6b])) == [5, 2, 1, 0x6b]
    ensures EditCodec.EncodeField(EditCodec.Deleted(1, 9)) == [6, 1, 9]
    ensures EditCodec.EncodeField(EditCodec.NewFile(2, EditCodec.Meta(8, 100, [0x61], [0x62]))) ==
            [7, 2, 8, 100, 1, 0x61, 1, 0x62]
    ensures EditCodec.EncodeField(EditCodec.PrevLogNumber(11)) == [9, 11]
  {
    forall n: nat | n < 128 ensures Varint(n) == [n] {
    }
  }

  /** Levels beyond the last, and tags the reader does not know, fail the edit. */
  lemma BadEditField(e: EditCodec.Edit, tag: nat, level: nat, rest: Bytes)
    requires tag < WIDTH32 && level < WIDTH32
    ensures tag == 5 || tag == 6 || tag == 7 ==>
              (level >= 7 ==> EditCodec.DecodeInto(e, Varint(tag) + (Varint(level) + rest)) == None)
    ensures tag == 0 || tag == 8 || tag > 9 ==> EditCodec.DecodeInto(e, Varint(tag) + rest) == None
  {
    Varint32RoundTrip(tag, Varint(level) + rest);
    Varint32RoundTrip(tag, rest);
    Varint32RoundTrip(level, rest);
  }

  // ---- Tables ----

  /** An internal key ends with its sequence number and kind, 1 for a value and 0 for a deletion, in eight bytes. */
  lemma InternalKeyBytes()
    ensures Tag(IKey(0.5, 3, Value)) == 0x301 && Tag(IKey(0.5, 3, Deletion)) == 0x300
    ensures TableFile.KeyBytes(Separators.TableKey([0x61], 0x301)) == [0x61, 1, 3, 0, 0, 0, 0, 0, 0]
  {
    assert Fixed64(0x301) == [1, 3, 0, 0, 0, 0, 0, 0];
  }

  /** Two entries that share a byte, and the one restart point. */
  lemma BlockExample()
    ensures var l :=
              BlockFormat.Layout([BlockFormat.Item([0x61, 0x62], [1]), BlockFormat.Item([0x61, 0x63], [2])], [0]);
            BlockFormat.StartsOk(l)
            && BlockFormat.Block(l) == [0, 2, 1, 0x61, 0x62, 1] + [1, 1, 1, 0x63, 2] + [0, 0, 0, 0] + [1, 0, 0, 0]
  {
    var a, b := BlockFormat.Item([0x61, 0x62], [1]), BlockFormat.Item([0x61, 0x63], [2]);
    var l := BlockFormat.Layout([a, b], [0]);
    SmallVarint(0);
    SmallVarint(1);
    SmallVarint(2);
    assert BlockFormat.CommonFrom(a.key, b.key, 1) == 1;
    assert BlockFormat.Common(a.key, b.key) == 1;
    assert BlockFormat.EntryAt(l, 0) == [0, 2, 1, 0x61, 0x62, 1];
    assert b.key[1..] == [0x63];
    assert BlockFormat.EntryAt(l, 1) == [1, 1, 1, 0x63, 2];
    assert BlockFormat.Data(l, 0) == [] && BlockFormat.Data(l, 1) == [] + BlockFormat.EntryAt(l, 0);
    assert BlockFormat.Data(l, 2) == BlockFormat.Data(l, 1) + BlockFormat.EntryAt(l, 1);
    assert BlockFormat.Points(l, 0) == [] && BlockFormat.Points(l, 1) == [] + CutWord(0);
    assert CutWord(0) == [0, 0, 0, 0] && CutWord(1) == [1, 0, 0, 0];
  }

  /** The footer ends with the magic number 0xdb4775248b80fb57. */
  lemma FooterEnds(meta: TableFile.Handle, index: TableFile.Handle)
    ensures var b := TableFile.FooterBytes(meta, index);
            |b| == 48 && b[40..] == [0x57, 0xfb, 0x80, 0x8b, 0x24, 0x75, 0x47, 0xdb]
  {
    assert Fixed32(0x8b80_fb57) == [0x57, 0xfb, 0x80, 0x8b] && Fixed32(0xdb47_7524) == [0x24, 0x75, 0x47, 0xdb];
  }

  /** Anything else is not a table. */
  lemma FooterIsChecked(b: Bytes)
    requires |b| == 48
    ensures TableFile.FooterOf(b).Some? ==> b[40..] == [0x57, 0xfb, 0x80, 0x8b, 0x24, 0x75, 0x47, 0xdb]
  {
    if TableFile.FooterOf(b).Some? {
      WordIs(b[40..44], 0x57, 0xfb, 0x80, 0x8b);
      WordIs(b[44..48], 0x24, 0x75, 0x47, 0xdb);
      assert b[40..] == b[40..44] + b[44..48];
    }
  }

  /** The bytes of a number are determined by it. */
  lemma WordIs(b: Bytes, x: Byte, y: Byte, z: Byte, w: Byte)
    requires |b| == 4 && DecodeFixed32(b) == DecodeFixed32([x, y, z, w])
    ensures b == [x, y, z, w]
  {
    var p, q := b[0] as int, x as int;
    assert b[0] as int == x as int && b[1] as int == y as int && b[2] as int == z as int && b[3] as int == w as int;
  }

  /** A block is not read when its checksum is wrong and the reader checks it, nor when its kind is unknown. */
  lemma BlockIsChecked(c: TableFile.Codec, file: Bytes, h: TableFile.Handle, verify: bool)
    requires TableFile.ReadBlock(c, file, h, verify).Some?
    ensures var end := h.offset + h.size;
            && end + 5 <= |file| && (file[end] == 0 || file[end] == 1)
            && (verify ==> c.crc(file[h.offset..end + 1]) == LogFormat.Unmask(DecodeFixed32(file[end + 1..end + 5])))
            && (file[end] == 0 ==> TableFile.ReadBlock(c, file, h, verify) == Some(file[h.offset..end]))
  {
    var end := h.offset + h.size;
    var data := file[h.offset..end + 5];
    assert data[..h.size + 1] == file[h.offset..end + 1] && data[h.size + 1..] == file[end + 1..end + 5];
    assert data[..h.size] == file[h.offset..end];
  }

  /** A filter block without filters: an empty array that starts at 0, and stretches of 2 to the 11 bytes. */
  lemma EmptyFilterBlock()
    ensures FilterBlock.Contents([]) == [0, 0, 0, 0, 11]
    ensures FilterBlock.Stretch(2047) == 0 && FilterBlock.Stretch(2048) == 1
  {
    assert CutWord(0) == [0, 0, 0, 0];
  }

  /** Ten bits a key make six probes and, for ten keys, thirteen bytes; rotating back gives the hash again. */
  lemma BloomNumbers(h: nat)
    ensures Bloom.Probes(10) == 6 && Bloom.Probes(0) == 1 && Bloom.Probes(100) == 30
    ensures Bloom.FilterBytes(10, 10) == 13 && Bloom.FilterBytes(1, 10) == 8
    ensures var d := Bloom.Delta(h); d % 0x8000 * 0x2_0000 + d / 0x8000 == h % 0x1_0000_0000
  {
  }
}
