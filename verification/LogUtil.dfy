/** The bounded log file: records are appended until the size limit is reached, then
    writing starts over at the beginning of the file. */
module LogUtil {
  import opened ByteStrings

  const WRITE_BUF_SIZE: nat := 1024
  const FUNCTION_STRING_LEN: nat := 56
  const FMT_LIMIT: nat := 128          // BUF_SIZE - OTHER_STRING_LEN - FUNCTION_STRING_LEN
  const GW_DEBUG: int := 0

  /** One answer of `pwrite`. */
  datatype PwriteResult = Wrote(n: nat) | Interrupted | Failed

  /** How a sequence of writes ends: complete, with an error, or not yet. */
  datatype WriteResult = Complete | Error | Pending

  /** The file after writing `b` at `off`; a gap before it reads as zeros. */
  function WriteAt(f: Bytes, off: nat, b: Bytes): Bytes {
    if b == [] then f
    else
      var g := if |f| < off then f + Zeros(off - |f|) else f;
      g[..off] + b + (if off + |b| <= |g| then g[off + |b|..] else [])
  }

  /** A write is exactly where it says, and nowhere else. */
  lemma WriteFacts(f: Bytes, off: nat, b: Bytes)
    ensures var r := WriteAt(f, off, b);
            && (b != [] ==> |r| == (if |f| < off + |b| then off + |b| else |f|) && r[off..off + |b|] == b)
            && (b == [] ==> r == f)
            && (forall p | 0 <= p < |f| && !(off <= p < off + |b|) :: r[p] == f[p])
            && (b != [] ==> forall p | |f| <= p < off :: r[p] == 0)
  {
  }

  /** Writing a string piece by piece is writing it at once. */
  lemma WriteMore(f: Bytes, off: nat, a: Bytes, b: Bytes)
    ensures WriteAt(WriteAt(f, off, a), off + |a|, b) == WriteAt(f, off, a + b)
  {
    hide WriteAt;
    var g := WriteAt(f, off, a);
    WriteFacts(f, off, a);
    WriteFacts(g, off + |a|, b);
    WriteFacts(f, off, a + b);
    if a == [] {
      assert a + b == b;
    } else if b == [] {
      assert a + b == a;
    } else {
      var r, r' := WriteAt(g, off + |a|, b), WriteAt(f, off, a + b);
      assert |r| == |r'|;
      forall p | 0 <= p < |r| ensures r[p] == r'[p] {
        if off <= p < off + |a| {
          assert g[off..off + |a|][p - off] == a[p - off] && r'[off..off + |a + b|][p - off] == a[p - off];
        } else if off + |a| <= p < off + |a| + |b| {
          assert r[off + |a|..off + |a| + |b|][p - off - |a|] == b[p - off - |a|];
          assert r'[off..off + |a + b|][p - off] == (a + b)[p - off];
        }
      }
    }
  }

  /** How far a write of `left` bytes gets with these answers of `pwrite`, and how it ends. */
  function Progress(answers: seq<PwriteResult>, left: nat): (r: (nat, WriteResult))
    ensures r.0 <= left && (r.1 == Complete <==> r.0 == left)
  {
    if left == 0 then (0, Complete)
    else if answers == [] then (0, Pending)
    else
      match answers[0]
      case Failed => (0, Error)
      case Interrupted => Progress(answers[1..], left)
      case Wrote(n) =>
        var k := if n <= left then n else left;
        var (done, res) := Progress(answers[1..], left - k);
        (k + done, res)
  }

  lemma ProgressStep(answers: seq<PwriteResult>, i: nat, left: nat)
    requires i < |answers| && left > 0
    ensures Progress(answers[i..], left) ==
            match answers[i]
            case Failed => (0, Error)
            case Interrupted => Progress(answers[i + 1..], left)
            case Wrote(n) =>
              var k := if n <= left then n else left;
              (k + Progress(answers[i + 1..], left - k).0, Progress(answers[i + 1..], left - k).1)
  {
    assert answers[i..][0] == answers[i] && answers[i..][1..] == answers[i + 1..];
  }

  lemma ProgressEnds(answers: seq<PwriteResult>, i: nat, left: nat)
    requires i <= |answers| && (left == 0 || i == |answers|)
    ensures Progress(answers[i..], left) == (0, if left == 0 then Complete else Pending)
  {
  }

  ghost function Concat(records: seq<Bytes>): Bytes {
    if records == [] then [] else Concat(records[..|records| - 1]) + records[|records| - 1]
  }

  lemma ConcatSnoc(records: seq<Bytes>, r: Bytes)
    ensures Concat(records + [r]) == Concat(records) + r
  {
    assert (records + [r])[..|records|] == records;
  }

  /** Nothing outside `[from, to)` differs from `was`, and nothing was added beyond `to`. */
  ghost predicate OnlyWithin(was: Bytes, f: Bytes, from: nat, to: nat) {
    && |was| <= |f| && (|f| > |was| ==> |f| <= to)
    && forall p | 0 <= p < |was| && !(from <= p < to) :: f[p] == was[p]
  }

  class LogFile {
    const maxSize: int        // the configured size limit
    const level: int          // the lowest level that is logged
    var file: Bytes           // the bytes of the file
    var fileSize: nat         // where the current cycle starts
    var logOffset: nat        // how far into the cycle the next record goes

    ghost const initial: Bytes        // the file when logging was set up
    ghost var records: seq<Bytes>     // the complete records of the current cycle

    /** No byte is ever written at or above this: the configured limit, or the length of
        the longest record if the limit is smaller than that. */
    ghost function Limit(): nat {
      if maxSize >= WRITE_BUF_SIZE then maxSize else WRITE_BUF_SIZE - 1
    }

    ghost predicate Valid()
      reads this
    {
      && fileSize + logOffset <= |file|
      && file[fileSize..fileSize + logOffset] == Concat(records)
      && OnlyWithin(initial, file, 0, Limit())
    }

    constructor (level: int, maxSize: int, content: Bytes)
      ensures Valid() && this.level == level && this.maxSize == maxSize && initial == content
      ensures file == content && fileSize == |content| && logOffset == 0 && records == []
    {
      this.level, this.maxSize := level, maxSize;
      file, fileSize, logOffset := content, |content|, 0;
      initial, records := content, [];
    }

    /** Writes all of `buf` at `offset`, whatever pieces `pwrite` accepts. `answers` are the
        answers it gets; it stops early on an error, and is still at work if they run out. */
    method FullPwrite(buf: Bytes, offset: nat, answers: seq<PwriteResult>) returns (res: WriteResult)
      modifies this`file
      ensures var (done, end) := Progress(answers, |buf|);
              res == end && file == WriteAt(old(file), offset, buf[..done])
    {
      hide WriteAt, Progress;
      var total, i := 0, 0;
      res := Pending;
      NoPiece(file, offset, buf);
      assert answers[0..] == answers;
      while total < |buf| && i < |answers|
        invariant 0 <= total <= |buf| && 0 <= i <= |answers| && res == Pending
        invariant file == WriteAt(old(file), offset, buf[..total])
        invariant total + Progress(answers[i..], |buf| - total).0 == Progress(answers, |buf|).0
        invariant Progress(answers[i..], |buf| - total).1 == Progress(answers, |buf|).1
        decreases |answers| - i
      {
        ProgressStep(answers, i, |buf| - total);
        match answers[i] {
          case Failed =>
            res := Error;
            return;
          case Interrupted =>
          case Wrote(n) =>
            var k := if n <= |buf| - total then n else |buf| - total;
            NextPiece(old(file), offset, buf, total, k);
            file := WriteAt(file, offset + total, buf[total..total + k]);
            total := total + k;
        }
        i := i + 1;
      }
      ProgressEnds(answers, i, |buf| - total);
      if total == |buf| {
        res := Complete;
      }
    }

    lemma NoPiece(f: Bytes, offset: nat, buf: Bytes)
      ensures WriteAt(f, offset, buf[..0]) == f
    {
    }

    lemma NextPiece(f: Bytes, offset: nat, buf: Bytes, total: nat, k: nat)
      requires total + k <= |buf|
      ensures WriteAt(WriteAt(f, offset, buf[..total]), offset + total, buf[total..total + k])
           == WriteAt(f, offset, buf[..total + k])
    {
      WriteMore(f, offset, buf[..total], buf[total..total + k]);
      assert buf[..total] + buf[total..total + k] == buf[..total + k];
    }

    /** Whether a call gets as far as writing its formatted record to the file: its level is one
        of the four and high enough, and function name, format and record are short enough. */
    ghost predicate Wanted(lvl: int, funcLen: nat, fmtLen: nat, size: nat) {
      level <= lvl && 0 <= lvl <= 3 && funcLen < 56 && fmtLen < 128 && 0 < size < 1024
    }

    /** Whether the next record starts over at the beginning of the file. */
    predicate Rewinds(record: Bytes)
      reads this
    {
      fileSize + logOffset + |record| >= maxSize
    }

    /** Writes one record that fits the buffer: rewinds if need be, then writes it. */
    method WriteRecord(record: Bytes, answers: seq<PwriteResult>) returns (res: WriteResult)
      requires Valid() && 0 < |record| < WRITE_BUF_SIZE
      modifies this
      ensures Valid() && Written(record, answers, res, old(Rewinds(record)), old(file), old(fileSize),
                                 old(logOffset), old(records))
    {
      hide OnlyWithin, Concat, WriteAt, Progress;
      if fileSize + logOffset + |record| >= maxSize {
        logOffset, fileSize, records := 0, 0, [];
        NoRecords();
      }
      ghost var was := file;
      var start := fileSize + logOffset;
      res := FullPwrite(record, start, answers);
      WrittenWithin(was, start, record, Progress(answers, |record|).0);
      CycleKept(was, file, fileSize, start, start + |record|);
      StillWithin(initial, was, file, start, start + |record|, Limit());
      if res == Complete {
        CycleGrows(file, fileSize, start, record, records);
        logOffset := logOffset + |record|;
        records := records + [record];
      }
    }

    /** What writing a record leads to. */
    ghost predicate Written(record: Bytes, answers: seq<PwriteResult>, res: WriteResult, rewinds: bool,
                            was: Bytes, oldSize: nat, oldOffset: nat, oldRecords: seq<Bytes>)
      reads this
    {
      var start := if rewinds then 0 else oldSize + oldOffset;
      var (done, end) := Progress(answers, |record|);
      && res == end && file == WriteAt(was, start, record[..done])
      && start + |record| <= Limit()
      && (start + |record| <= maxSize <==> |record| <= maxSize)
      && OnlyWithin(was, file, start, start + |record|)
      && fileSize == (if rewinds then 0 else oldSize)
      && fileSize + logOffset == (if res == Complete then start + |record| else start)
      && records == (if rewinds then [] else oldRecords) + (if res == Complete then [record] else [])
      && (res == Complete ==> Holds(file, start, record))
    }

    /** Logs one formatted record. */
    method LogPrintf(lvl: int, funcLen: nat, fmtLen: nat, record: Bytes, answers: seq<PwriteResult>)
      returns (res: WriteResult)
      requires Valid()
      modifies this
      ensures Valid()
      ensures !Wanted(lvl, funcLen, fmtLen, |record|) ==>
                res == Error && file == old(file) && fileSize == old(fileSize)
                && logOffset == old(logOffset) && records == old(records)
      ensures Wanted(lvl, funcLen, fmtLen, |record|) ==>
                Written(record, answers, res, old(Rewinds(record)), old(file), old(fileSize),
                        old(logOffset), old(records))
      ensures Wanted(lvl, funcLen, fmtLen, |record|) ==> res == Progress(answers, |record|).1
      ensures Wanted(lvl, funcLen, fmtLen, |record|) && old(fileSize + logOffset) + |record| < maxSize ==>
                Appended(record, res, old(file), old(fileSize), old(fileSize + logOffset), old(records))
      ensures Wanted(lvl, funcLen, fmtLen, |record|) && old(fileSize + logOffset) + |record| >= maxSize ==>
                Restarted(record, res)
    {
      hide Written, OnlyWithin, WriteAt, Progress, Concat;
      res := Error;
      if lvl < level {
        return;
      }
      if funcLen >= FUNCTION_STRING_LEN || fmtLen >= FMT_LIMIT {
        return;
      }
      if lvl != 0 && lvl != 1 && lvl != 2 && lvl != 3 {
        return;
      }
      if 0 < |record| < WRITE_BUF_SIZE {
        res := WriteRecord(record, answers);
        WhereWritten(record, answers, res, old(Rewinds(record)), old(file), old(fileSize), old(logOffset),
                     old(records));
      }
    }

    /** The record went behind everything written so far in this cycle, and what was before it
        in the file is as it was. */
    ghost predicate Appended(record: Bytes, res: WriteResult, was: Bytes, oldSize: nat, end: nat,
                             oldRecords: seq<Bytes>)
      reads this
    {
      && end <= |was| <= |file| && file[..end] == was[..end] && fileSize == oldSize
      && |file| <= (if |was| < end + |record| then end + |record| else |was|)
      && if res == Complete then
           && fileSize + logOffset == end + |record| <= |file| && file[end..end + |record|] == record
           && records == oldRecords + [record]
         else fileSize + logOffset == end && records == oldRecords
    }

    /** The record began a new cycle at the beginning of the file. */
    ghost predicate Restarted(record: Bytes, res: WriteResult)
      reads this
    {
      && fileSize == 0
      && if res == Complete then logOffset == |record| <= |file| && file[..|record|] == record && records == [record]
         else logOffset == 0 && records == []
    }

    lemma WhereWritten(record: Bytes, answers: seq<PwriteResult>, res: WriteResult, rewinds: bool,
                       was: Bytes, oldSize: nat, oldOffset: nat, oldRecords: seq<Bytes>)
      requires 0 < |record| && Written(record, answers, res, rewinds, was, oldSize, oldOffset, oldRecords)
      requires oldSize + oldOffset <= |was|
      ensures res == Progress(answers, |record|).1
      ensures !rewinds ==> Appended(record, res, was, oldSize, oldSize + oldOffset, oldRecords)
      ensures rewinds ==> Restarted(record, res)
    {
      hide WriteAt, Progress;
      assert rewinds && res == Complete ==> file[..|record|] == file[0..|record|] && [] + [record] == [record];
    }
  }

  /** What `pwrite` accepts altogether. */
  ghost function Accepted(answers: seq<PwriteResult>): nat {
    if answers == [] then 0
    else (if answers[0].Wrote? then answers[0].n else 0) + Accepted(answers[1..])
  }

  /** How many answers there are before the first failure. */
  ghost function BeforeFailure(answers: seq<PwriteResult>): (k: nat)
    ensures k <= |answers| && (k < |answers| ==> answers[k].Failed?)
    ensures forall i | 0 <= i < k :: !answers[i].Failed?
  {
    if answers == [] || answers[0].Failed? then 0 else 1 + BeforeFailure(answers[1..])
  }

  /** A write gets as far as the answers before the first failure take it; it ends in an error
      only if that is not far enough and there is a failure. Interruptions do not matter. */
  lemma {:induction false} ProgressIs(answers: seq<PwriteResult>, left: nat)
    ensures var k := BeforeFailure(answers);
            var sum := Accepted(answers[..k]);
            Progress(answers, left)
            == if sum >= left then (left, Complete) else (sum, if k < |answers| then Error else Pending)
  {
    if answers != [] && left > 0 && !answers[0].Failed? {
      var k := BeforeFailure(answers);
      assert answers[..k][0] == answers[0] && answers[..k][1..] == answers[1..][..k - 1];
      var n := if answers[0].Wrote? then if answers[0].n <= left then answers[0].n else left else 0;
      ProgressIs(answers[1..], left - n);
    }
  }

  /** One call, with the answers that `pwrite` gives while it lasts. */
  datatype LogCall = LogCall(lvl: int, funcLen: nat, fmtLen: nat, record: Bytes, answers: seq<PwriteResult>)

  ghost function Records(calls: seq<LogCall>): (r: seq<Bytes>)
    ensures |r| == |calls| && forall i | 0 <= i < |r| :: r[i] == calls[i].record
  {
    seq(|calls|, i requires 0 <= i < |calls| => calls[i].record)
  }

  /** Records that fit the limit together are all in the file, one behind the other. */
  method LogAll(level: int, maxSize: int, content: Bytes, calls: seq<LogCall>) returns (log: LogFile)
    requires |content| + |Concat(Records(calls))| < maxSize
    requires forall c | c in calls ::
               && level <= c.lvl && 0 <= c.lvl <= 3 && c.funcLen < 56 && c.fmtLen < 128 && 0 < |c.record| < 1024
               && Progress(c.answers, |c.record|).1 == Complete
    ensures log.Valid() && log.file == content + Concat(Records(calls))
  {
    hide Progress, Concat, WriteAt, OnlyWithin;
    log := new LogFile(level, maxSize, content);
    NoRecords();
    ghost var recs := Records(calls);
    for i := 0 to |calls|
      invariant fresh(log) && log.Valid() && log.maxSize == maxSize && log.level == level && log.records == recs[..i]
      invariant log.fileSize == |content| && |log.file| == log.fileSize + log.logOffset
      invariant log.file[..|content|] == content && log.logOffset == |Concat(recs[..i])|
    {
      ConcatPrefix(recs, i + 1);
      assert recs[..i + 1] == recs[..i] + [recs[i]];
      ConcatSnoc(recs[..i], recs[i]);
      assert calls[i] in calls;
      var res := log.LogPrintf(calls[i].lvl, calls[i].funcLen, calls[i].fmtLen, calls[i].record, calls[i].answers);
    }
    assert recs[..|recs|] == recs;
    assert log.file == log.file[..log.fileSize] + log.file[log.fileSize..log.fileSize + log.logOffset];
  }

  lemma {:induction false} ConcatPrefix(records: seq<Bytes>, k: nat)
    requires k <= |records|
    ensures |Concat(records[..k])| <= |Concat(records)|
    decreases |records| - k
  {
    if k < |records| {
      ConcatPrefix(records, k + 1);
      assert records[..k + 1] == records[..k] + [records[k]];
      ConcatSnoc(records[..k], records[k]);
    } else {
      assert records[..k] == records;
    }
  }

  /** A limit smaller than a record does not stop the record from being written whole. */
  method SmallLimitExample() returns (log: LogFile)
    ensures log.Valid() && log.maxSize == 1 && log.file == [65, 66]
  {
    log := new LogFile(GW_DEBUG, 1, []);
    ghost var record := [65, 66];
    assert record[..2] == record;
    var res := log.LogPrintf(GW_DEBUG, 0, 0, [65, 66], [Wrote(2)]);
  }

  lemma WrittenWithin(f: Bytes, start: nat, record: Bytes, done: nat)
    requires start <= |f| && done <= |record|
    ensures var r := WriteAt(f, start, record[..done]);
            |f| <= |r| && OnlyWithin(f, r, start, start + |record|) && (done == |record| ==> Holds(r, start, record))
  {
    WriteFacts(f, start, record[..done]);
    hide WriteAt;
    assert done == |record| ==> record[..done] == record;
  }

  /** The bytes of `b` are at `start`. */
  ghost predicate Holds(f: Bytes, start: nat, b: Bytes) {
    start + |b| <= |f| && f[start..start + |b|] == b
  }

  /** The cycle with one more record. */
  lemma CycleGrows(f: Bytes, base: nat, start: nat, record: Bytes, records: seq<Bytes>)
    requires base <= start && Holds(f, start, record) && f[base..start] == Concat(records)
    ensures f[base..start + |record|] == Concat(records + [record])
  {
    ConcatSnoc(records, record);
    assert f[base..start + |record|] == f[base..start] + f[start..start + |record|];
  }

  lemma NoRecords()
    ensures Concat([]) == []
  {
  }

  lemma StillWithin(initial: Bytes, was: Bytes, f: Bytes, start: nat, end: nat, limit: nat)
    requires OnlyWithin(initial, was, 0, limit) && OnlyWithin(was, f, start, end) && end <= limit
    ensures OnlyWithin(initial, f, 0, limit)
  {
  }

  /** Writing from `start` on does not touch what the cycle holds before it. */
  lemma CycleKept(was: Bytes, f: Bytes, base: nat, start: nat, end: nat)
    requires OnlyWithin(was, f, start, end) && base <= start <= |was|
    ensures f[base..start] == was[base..start]
  {
  }
}
