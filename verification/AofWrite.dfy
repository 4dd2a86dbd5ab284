/**
  The write path of the append only file (project/network/redis/redis-3.2/src/aof.c:306-444):
  one call of write(2), what is left of aof_buf after it, and aof_current_size.  The
  casts to int that the code makes are modelled; where C leaves the result of an int
  overflow open, it wraps here.
*/
module AofWrite {
  import opened CInt

  // A position of sdsrange, counted from the end if it is negative
  function Position(len: int, at: int): (p: nat)
    ensures at >= 0 ==> p == at
  {
    if at >= 0 then at
    else
      var p := Int32(len + at);
      if p < 0 then 0 else p
  }

  /** sdsrange */
  function SdsRange(s: string, first: int, last: int): string {
    if s == "" then s
    else
      var len := Int32(|s|);
      var start, end := Position(len, first), Position(len, last);
      if start > end || start >= len then ""
      else if end >= len then s[start..len]
      else s[start..end + 1]
  }

  /** The file, what waits to be written to it, and the size the server believes it has. */
  datatype Log = Log(file: string, buf: string, size: int)

  /** The outcome of write(2): -1, or how many bytes were written. */
  predicate WriteResult(l: Log, w: int) {
    -1 <= w <= |l.buf|
  }

  // ftruncate
  function Resize(file: string, n: int): string {
    if n < 0 then file else if n <= |file| then file[..n] else file + seq(n - |file|, _ => '\0')
  }

  datatype Flushed = Flushed(log: Log, exited: bool)

  /**
    flushAppendOnlyFile from the write on, for a buffer that is not empty; `undone` tells whether
    ftruncate works, `always` whether the fsync policy is to sync at every write
  */
  function Flush(l: Log, w: int, undone: bool, always: bool): Flushed
    requires WriteResult(l, w)
  {
    var file := if w > 0 then l.file + l.buf[..w] else l.file;
    if w == Int32(|l.buf|) then Flushed(Log(file, "", l.size + w), false)
    else
      var file' := if w != -1 && undone then Resize(file, l.size) else file;
      var w' := if undone then -1 else w;
      if always then Flushed(Log(file', l.buf, l.size), true)
      else if w' > 0 then Flushed(Log(file', SdsRange(l.buf, Int32(w'), -1), l.size + w'), false)
      else Flushed(Log(file', l.buf, l.size), false)
  }

  /** Nothing fed is lost or written twice, and the size is right. */
  predicate Conserves(l: Log, l': Log) {
    l'.file + l'.buf == l.file + l.buf && l'.size == |l'.file|
  }

  lemma RangeTail(s: string, w: nat)
    requires 0 < w < |s| <= INT_MAX
    ensures SdsRange(s, Int32(w), -1) == s[w..]
  {
    assert s[w..|s|] == s[w..];
  }

  lemma Split(f: string, b: string, w: nat)
    requires w <= |b|
    ensures (f + b[..w]) + b[w..] == f + b && (f + b[..w])[..|f|] == f && f[..|f|] == f
    ensures b[..|b|] == b && f + b + "" == f + b
  {
    assert b[..w] + b[w..] == b;
  }

  /** With a buffer of at most INT_MAX bytes, whatever write and ftruncate do. */
  lemma FlushConserves(l: Log, w: int, undone: bool, always: bool)
    requires WriteResult(l, w) && l.size == |l.file| && 0 < |l.buf| <= INT_MAX
    ensures Flush(l, w, undone, always).exited <==> always && w != |l.buf|
    ensures var r := Flush(l, w, undone, always); !r.exited ==> Conserves(l, r.log)
    ensures var r := Flush(l, w, undone, always); r.exited ==>
      l.file <= r.log.file <= l.file + l.buf
  {
    if w >= 0 {
      Split(l.file, l.buf, w);
      if 0 < w < |l.buf| {
        RangeTail(l.buf, w);
      }
    }
    Split(l.file, l.buf, |l.buf|);
  }

  /**
    With a longer buffer some outcome loses data: the length no longer fits the int that the
    number of bytes written is compared with.
  */
  lemma LongBufferLoses(l: Log) returns (w: int, undone: bool)
    requires l.size == |l.file| && |l.buf| > INT_MAX
    ensures WriteResult(l, w) && !Flush(l, w, undone, false).exited
    ensures !Conserves(l, Flush(l, w, undone, false).log)
  {
    var c := Int32(|l.buf|);
    undone := false;
    w := if c >= -1 then c else 1;
    var r := Flush(l, w, undone, false).log;
    if c >= -1 {
      assert r.buf == "" && |r.file| < |l.file| + |l.buf|;
    } else {
      assert r.buf == "" && |r.file| == |l.file| + 1;
    }
    assert |r.file + r.buf| != |l.file + l.buf|;
  }

  /** So a flush conserves the log whatever happens exactly when the buffer is short enough. */
  lemma ConservesIffShort(l: Log)
    requires l.size == |l.file| && l.buf != ""
    ensures |l.buf| <= INT_MAX <==>
      (forall w, undone | WriteResult(l, w) :: Conserves(l, Flush(l, w, undone, false).log))
  {
    if |l.buf| <= INT_MAX {
      forall w, undone | WriteResult(l, w)
        ensures Conserves(l, Flush(l, w, undone, false).log)
      {
        FlushConserves(l, w, undone, false);
      }
    } else {
      var w, undone := LongBufferLoses(l);
    }
  }
}
