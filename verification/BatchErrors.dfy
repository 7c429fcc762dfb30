/** Write batches that are not whole: an update of no known kind, one that is cut short, a count that is wrong. None
    is taken for a batch, and the updates before the error are those that were inserted. */
module BatchErrors {
  import opened Keys
  import opened LogFormat
  import opened Varints
  import opened EditCodec
  import opened EditErrors
  import opened WriteBatches
  import Seqs

  ghost predicate AllLoggable(us: seq<Update>) {
    forall i :: 0 <= i < |us| ==> Loggable(us[i])
  }

  /** Whole updates in front of anything are read first. */
  lemma {:induction false} UpdatesFirst(us: seq<Update>, rest: Bytes)
    requires AllLoggable(us)
    ensures Parsed(UpdatesBytes(us) + rest) == us + Parsed(rest)
    ensures ParseUpdates(UpdatesBytes(us) + rest).Some? <==> ParseUpdates(rest).Some?
  {
    hide UpdateBytes, GetUpdate;
    if us == [] {
      Seqs.NothingBefore(rest);
      Seqs.NothingBefore(Parsed(rest));
    } else {
      var more := UpdatesBytes(us[1..]);
      UpdatesFirst(us[1..], rest);
      Seqs.Assoc(UpdateBytes(us[0]), more, rest);
      UpdateReads(us[0], more + rest);
      Seqs.Advance(us, 0);
      Seqs.WholeSlice(us);
      Seqs.Assoc([us[0]], us[1..], Parsed(rest));
    }
  }

  /** `junk` cannot begin an update. */
  lemma {:induction false} StopsAt(us: seq<Update>, junk: Bytes)
    requires AllLoggable(us) && junk != [] && GetUpdate(junk) == None
    ensures ParseUpdates(UpdatesBytes(us) + junk) == None && Parsed(UpdatesBytes(us) + junk) == us
  {
    hide GetUpdate;
    UpdatesFirst(us, junk);
    Seqs.NothingMore(us);
  }

  /** Only deletions and values are known. */
  lemma {:induction false} UnknownKindStops(us: seq<Update>, kind: byte, rest: Bytes)
    requires AllLoggable(us) && kind > 1
    ensures ParseUpdates(UpdatesBytes(us) + ([kind] + rest)) == None
    ensures Parsed(UpdatesBytes(us) + ([kind] + rest)) == us
  {
    StopsAt(us, [kind] + rest);
  }

  /** A batch that ends in the middle of an update. */
  lemma {:induction false} CutUpdateStops(us: seq<Update>, u: Update, m: nat)
    requires AllLoggable(us) && Loggable(u) && 0 < m < |UpdateBytes(u)|
    ensures ParseUpdates(UpdatesBytes(us) + UpdateBytes(u)[..m]) == None
    ensures Parsed(UpdatesBytes(us) + UpdateBytes(u)[..m]) == us
  {
    CutUpdate(u, m);
    StopsAt(us, UpdateBytes(u)[..m]);
  }

  lemma {:induction false} CutUpdate(u: Update, m: nat)
    requires Loggable(u) && 0 < m < |UpdateBytes(u)|
    ensures GetUpdate(UpdateBytes(u)[..m]) == None
  {
    hide Delimited, GetDelimited;
    var b, k, v := UpdateBytes(u)[..m], Delimited(u.key), Delimited(u.value);
    if u.kind.Value? {
      assert b[1..] == (k + v)[..m - 1];
      CutParts(k, v, m - 1);
      if m - 1 < |k| {
        CutDelimited(u.key, m - 1);
      } else {
        DelimitedReads(u.key, v[..m - 1 - |k|]);
        CutDelimited(u.value, m - 1 - |k|);
      }
    } else {
      assert b[1..] == k[..m - 1];
      CutDelimited(u.key, m - 1);
    }
  }

  /** A batch whose header claims another number of updates. */
  lemma {:induction false} WrongCountRefused(rep: Bytes, us: seq<Update>)
    requires AllLoggable(us) && |rep| >= BATCH_HEADER && rep[BATCH_HEADER..] == UpdatesBytes(us)
    ensures Contents(rep) == if ReadFixed32(rep[8..]) == |us| then Some(us) else None
    ensures Inserted(rep) == Numbered(us, SequenceOf(rep))
  {
    hide ReadFixed32, GetUpdate, UpdatesBytes;
    UpdatesRead(us);
    ParsedIsAll(rep[BATCH_HEADER..]);
  }
}
