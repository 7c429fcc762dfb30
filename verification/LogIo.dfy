/** The log writer and reader as they run: fragment by fragment, block by block. */
module LogIo {
  import opened Keys
  import opened LogFormat
  import opened LogChecks
  import Seqs

  class LogWriter {
    const extend: Crc
    var dest: Bytes
    var blockOffset: nat
    ghost var records: seq<Bytes>

    ghost predicate Aligned()
      reads this
    {
      blockOffset <= BLOCK && blockOffset % BLOCK == |dest| % BLOCK
    }

    /** The file is exactly the layout of the records added so far. */
    ghost predicate Inv()
      reads this
    {
      Aligned() && dest == EncodeAll(extend, records)
    }

    constructor (extend: Crc)
      ensures Inv() && records == [] && this.extend == extend
    {
      this.extend := extend;
      dest, blockOffset, records := [], 0, [];
    }

    method EmitPhysicalRecord(t: byte, payload: Bytes)
      requires Aligned() && blockOffset + HEADER + |payload| <= BLOCK
      modifies this`dest, this`blockOffset
      ensures Aligned() && dest == old(dest) + Phys(extend, t, payload)
    {
      hide Phys, Header;
      var header := Header(extend, t, payload);
      dest := dest + header;
      dest := dest + payload;
      SameOffset(blockOffset, |old(dest)|, HEADER + |payload|);
      blockOffset := blockOffset + HEADER + |payload|;
      PhysIs(extend, old(dest), t, payload);
    }

    /** A block too short for a header is filled with zeros. */
    method PadBlock()
      requires Aligned()
      modifies this`dest, this`blockOffset
      ensures Aligned() && dest == old(dest) + Padding(|old(dest)|) && HEADER <= BLOCK - blockOffset == Leftover(|dest|)
    {
      var leftover := BLOCK - blockOffset;
      if leftover < HEADER {
        if leftover > 0 {
          dest := dest + seq(leftover, _ => 0);
        }
        blockOffset := 0;
      }
    }

    method AddRecord(record: Bytes)
      requires Inv()
      modifies this
      ensures Inv() && records == old(records) + [record]
    {
      hide Phys, Encode, EncodeAll, FragmentLength, Padding, Leftover, Rest;
      ghost var before := dest;
      ghost var all := Encode(extend, |dest|, record, true);
      var left, begin := record, true;
      Remainder(extend, before, record);
      while begin || left != []
        invariant Aligned() && records == old(records)
        invariant dest + Rest(extend, |dest|, left, begin) == before + all
        decreases begin, |left|, FragmentLength(|dest|, left) == 0
      {
        ghost var p, was, rest := |dest|, dest, left;
        ghost var first := begin;
        PadBlock();
        var avail := BLOCK - blockOffset - HEADER;
        FragmentIs(p, left, avail);
        var n := if |left| < avail then |left| else avail;
        var end := |left| == n;
        var t := if begin && end then FULL else if begin then FIRST else if end then LAST else MIDDLE;
        EmitPhysicalRecord(t, left[..n]);
        left, begin := left[n..], false;
        OneFragment(extend, was, rest, first, dest);
      }
      NothingLeftOver(extend, |dest|);
      records := records + [record];
      RecordAdded(extend, old(records), record);
    }
  }

  lemma SameOffset(a: nat, b: nat, n: nat)
    requires a % BLOCK == b % BLOCK
    ensures (a + n) % BLOCK == (b + n) % BLOCK
  {
  }

  lemma PhysIs(extend: Crc, before: Bytes, t: byte, payload: Bytes)
    requires |payload| < 0x1_0000
    ensures before + Header(extend, t, payload) + payload == before + Phys(extend, t, payload)
  {
    Seqs.Assoc(before, Header(extend, t, payload), payload);
  }

  lemma {:induction false} ReadUnfolds(extend: Crc, file: Bytes, p: nat, scratch: Option<Bytes>, drops: seq<nat>)
    requires p <= |file|
    ensures var x := NextPhysical(extend, file, p);
            ReadFrom(extend, file, p, scratch, drops) ==
            match Absorb(x, scratch, drops + x.drops)
            case Done(record, seen) => Outcome(record, x.next, seen)
            case More(sofar, seen) => ReadFrom(extend, file, x.next, sofar, seen)
  {
    hide NextPhysical, Absorb;
  }

  /** What is still to be written of a record. */
  ghost function Rest(extend: Crc, p: nat, left: Bytes, begin: bool): Bytes {
    if begin || left != [] then Encode(extend, p, left, begin) else []
  }

  lemma {:induction false} Remainder(extend: Crc, before: Bytes, record: Bytes)
    ensures before + Rest(extend, |before|, record, true) == before + Encode(extend, |before|, record, true)
  {
  }

  lemma NothingLeftOver(extend: Crc, p: nat)
    ensures Rest(extend, p, [], false) == []
  {
  }

  lemma OneFragment(extend: Crc, was: Bytes, left: Bytes, begin: bool, dest: Bytes)
    requires begin || left != []
    requires var n := FragmentLength(|was|, left);
             dest == was + Padding(|was|) + Phys(extend, TypeOf(begin, |left| == n), left[..n])
    ensures var n := FragmentLength(|was|, left);
            && dest + Rest(extend, |dest|, left[n..], false) == was + Rest(extend, |was|, left, begin)
            && (n == 0 && left != [] ==> FragmentLength(|dest|, left[n..]) > 0)
  {
    hide Phys, Padding, FragmentLength, Encode;
    var n := FragmentLength(|was|, left);
    EncodeUnfolds(extend, |was|, left, begin);
    FragmentProgress(|was|, left);
    var phys := Phys(extend, TypeOf(begin, |left| == n), left[..n]);
    Seqs.Assoc(was, Padding(|was|), phys);
    Seqs.Assoc(was, Padding(|was|) + phys, Rest(extend, |dest|, left[n..], false));
  }

  lemma {:induction false} RecordAdded(extend: Crc, records: seq<Bytes>, record: Bytes)
    ensures var before := EncodeAll(extend, records);
            EncodeAll(extend, records + [record]) == before + Encode(extend, |before|, record, true)
  {
    hide Encode;
    assert (records + [record])[..|records|] == records;
  }

  class LogReader {
    const extend: Crc
    const file: Bytes
    var buffer: Bytes
    var eof: bool
    var endOfBuffer: nat
    var reports: seq<nat>

    ghost predicate Inv()
      reads this
    {
      && |buffer| <= endOfBuffer <= |file| && |buffer| <= BLOCK
      && buffer == file[endOfBuffer - |buffer|..endOfBuffer]
      && (!eof ==> endOfBuffer % BLOCK == 0)
      && (eof ==> endOfBuffer == |file| && |buffer| <= |file| % BLOCK)
    }

    ghost function Pos(): nat
      requires Inv()
      reads this
    {
      endOfBuffer - |buffer|
    }

    constructor (extend: Crc, file: Bytes)
      ensures Inv() && Pos() == 0 && reports == [] && this.extend == extend && this.file == file
    {
      this.extend, this.file := extend, file;
      buffer, eof, endOfBuffer, reports := [], false, 0, [];
    }

    /** The buffer ends where the block or the file ends. */
    lemma BufferEnds()
      requires Inv()
      ensures buffer != [] ==> endOfBuffer == BufferEnd(file, Pos())
      ensures eof ==> BlockEnd(Pos()) > |file|
      ensures !eof && buffer != [] ==> BlockEnd(Pos()) == endOfBuffer
    {
    }

    method ReadBlock()
      requires Inv() && buffer == [] && !eof
      modifies this`buffer, this`eof, this`endOfBuffer
      ensures Inv() && Pos() == old(Pos())
      ensures eof || endOfBuffer > old(endOfBuffer)
    {
      var n := if BLOCK <= |file| - endOfBuffer then BLOCK else |file| - endOfBuffer;
      buffer := file[endOfBuffer..endOfBuffer + n];
      endOfBuffer := endOfBuffer + n;
      if n < BLOCK {
        eof := true;
      }
    }

    method ReadPhysicalRecord() returns (code: nat, fragment: Bytes)
      requires Inv()
      modifies this
      ensures Inv()
      ensures var x := NextPhysical(extend, file, old(Pos()));
              code == x.code && fragment == x.fragment && Pos() == x.next && reports == old(reports) + x.drops
      ensures code != EOF && code != BAD ==>
                var q := Start(old(Pos()));
                && Checks(extend, file, q) && code == file[q + 6] as int && fragment == PayloadAt(file, q)
                && Pos() == q + HEADER + |fragment| && reports == old(reports)
      ensures var q := Start(old(Pos()));
              Whole(file, q) && !Blank(file, q) && !Checks(extend, file, q) ==>
                code == BAD && Pos() == BufferEnd(file, q) && reports == old(reports) + [BufferEnd(file, q) - q]
    {
      hide NextPhysical, ParseBuffer;
      PhysicalMeans(extend, file, Pos());
      hide Checks, Blank, Whole, PayloadAt, Start, BufferEnd;
      ghost var want := NextPhysical(extend, file, Pos());
      while |buffer| < HEADER
        invariant Inv() && NextPhysical(extend, file, Pos()) == want && reports == old(reports)
        decreases !eof, |file| - endOfBuffer
      {
        BufferEnds();
        if !eof {
          SkipTrailer();
          ClearBuffer();
          ReadBlock();
        } else {
          AtEnd();
          ClearBuffer();
          assert reports + [] == reports;
          return EOF, [];
        }
      }
      AtFront();
      code, fragment := TakeRecord();
    }

    method Consume(n: nat)
      requires Inv() && n <= |buffer|
      modifies this`buffer
      ensures Inv() && buffer == old(buffer)[n..] && Pos() == old(Pos()) + n
    {
      Seqs.SliceOfSlice(file, Pos(), endOfBuffer, n, |buffer|);
      buffer := buffer[n..];
    }

    method ClearBuffer()
      requires Inv()
      modifies this`buffer
      ensures Inv() && buffer == [] && Pos() == endOfBuffer
    {
      buffer := [];
    }

    lemma AtFront()
      requires Inv() && |buffer| >= HEADER
      ensures NextPhysical(extend, file, Pos()) == ParseBuffer(extend, buffer, eof, Pos())
    {
      hide ParseBuffer;
      BufferEnds();
    }

    /** The record at the front of the buffer. */
    method TakeRecord() returns (code: nat, fragment: Bytes)
      requires Inv() && |buffer| >= HEADER
      modifies this`buffer, this`reports
      ensures Inv()
      ensures var x := ParseBuffer(extend, old(buffer), eof, old(Pos()));
              code == x.code && fragment == x.fragment && Pos() == x.next && reports == old(reports) + x.drops
    {
      hide Unmask, ReadFixed32;
      assert reports + [] == reports;
      var length := buffer[4] as int + buffer[5] as int * 256;
      var kind := buffer[6];
      if HEADER + length > |buffer| {
        var drop := |buffer|;
        ClearBuffer();
        if !eof {
          ReportCorruption(drop);
          return BAD, [];
        }
        return EOF, [];
      }
      if kind == 0 && length == 0 {
        ClearBuffer();
        return BAD, [];
      }
      if Unmask(ReadFixed32(buffer)) != extend(0, buffer[6..HEADER + length]) {
        var drop := |buffer|;
        ClearBuffer();
        ReportCorruption(drop);
        return BAD, [];
      }
      fragment := buffer[HEADER..HEADER + length];
      Consume(HEADER + length);
      return kind as int, fragment;
    }

    lemma SkipTrailer()
      requires Inv() && |buffer| < HEADER && !eof
      requires buffer != [] ==> BlockEnd(Pos()) == endOfBuffer
      ensures NextPhysical(extend, file, Pos()) == NextPhysical(extend, file, endOfBuffer)
    {
    }

    lemma AtEnd()
      requires Inv() && |buffer| < HEADER && eof && BlockEnd(Pos()) > |file|
      ensures NextPhysical(extend, file, Pos()) == Physical(EOF, [], |file|, [])
    {
    }

    method ReportCorruption(bytes: nat)
      requires Inv()
      modifies this`reports
      ensures Inv() && Pos() == old(Pos()) && reports == old(reports) + [bytes]
    {
      reports := reports + [bytes];
    }

    /** One logical record, or the end; the reader stops on every input. */
    method ReadRecord() returns (record: Option<Bytes>)
      requires Inv()
      modifies this
      ensures Inv()
      ensures var x := ReadFrom(extend, file, old(Pos()), None, old(reports));
              record == x.record && Pos() == x.next && reports == x.drops
      ensures record.Some? ==> exists q, xs :: IsRecord(extend, file, q, xs, record.value, Pos())
      ensures record.Some? ==>
                Total(reports) + |record.value| == Total(old(reports)) + Passed(extend, file, old(Pos()), Pos())
    {
      hide NextPhysical, ReadFrom, Checks, Blank, Whole, IsRecord;
      ghost var q, xs := RecordIsWhole(extend, file, Pos(), None, reports, 0, []);
      DeliveredOrReported(extend, file, Pos(), None, reports);
      ghost var want := ReadFrom(extend, file, Pos(), None, reports);
      var fragmented, scratch: Bytes := false, [];
      while true
        invariant Inv() && ReadFrom(extend, file, Pos(), if fragmented then Some(scratch) else None, reports) == want
        decreases |file| - Pos()
      {
        ghost var p, was, reported := Pos(), if fragmented then Some(scratch) else None, reports;
        var code, fragment := ReadPhysicalRecord();
        ghost var x := NextPhysical(extend, file, p);
        ReadUnfolds(extend, file, p, was, reported);
        if code == FULL as int {
          if fragmented && scratch != [] {
            ReportCorruption(|scratch|);
          }
          return Some(fragment);
        } else if code == FIRST as int {
          if fragmented && scratch != [] {
            ReportCorruption(|scratch|);
          }
          scratch, fragmented := fragment, true;
        } else if code == MIDDLE as int {
          if !fragmented {
            ReportCorruption(|fragment|);
          } else {
            scratch := scratch + fragment;
          }
        } else if code == LAST as int {
          if !fragmented {
            ReportCorruption(|fragment|);
          } else {
            scratch := scratch + fragment;
            return Some(scratch);
          }
        } else if code == EOF {
          return None;
        } else if code == BAD {
          if fragmented {
            ReportCorruption(|scratch|);
            fragmented, scratch := false, [];
          }
        } else {
          ReportCorruption(|fragment| + if fragmented then |scratch| else 0);
          fragmented, scratch := false, [];
        }
      }
    }

    /** The loop of log recovery: every record up to the end. */
    method ReadWholeLog() returns (records: seq<Bytes>)
      requires Inv()
      modifies this
      ensures Inv() && (records, reports) == ReadAll(extend, file, old(Pos()), old(reports))
    {
      hide ReadFrom;
      records := [];
      ghost var want := ReadAll(extend, file, Pos(), reports);
      while true
        invariant Inv()
        invariant var rest := ReadAll(extend, file, Pos(), reports);
                  records + rest.0 == want.0 && rest.1 == want.1
        decreases |file| - Pos()
      {
        ghost var rest := ReadAll(extend, file, Pos(), reports).0;
        var record := ReadRecord();
        if record.None? {
          assert rest == [] && records + rest == records;
          return;
        }
        Seqs.Assoc(records, [record.value], ReadAll(extend, file, Pos(), reports).0);
        records := records + [record.value];
      }
    }
  }
}
