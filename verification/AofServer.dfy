/**
  A server with an append only file, and the child process that rewrites it
  (project/network/redis/redis-3.2/src/aof.c).  Every method is one atomic step of the
  parent or of the child, so that what they all keep holds in every interleaving.

  Pipes are queues of bytes, the file is a string, and what the system calls return is
  up to the caller, and so is the clock.  Transactions are not modelled.
*/
module AofServer {
  import opened CInt
  import opened Decimal
  import opened AofFormat
  import opened AofReplay
  import opened AofDataset
  import opened AofProtocol
  import AofWrite

  const BLOCK: nat := 10 * 1024 * 1024

  /** aofrwblock: the used part of the buffer, and how much room is left after it. */
  datatype Block = Block(data: string, free: nat)

  function Flatten(bs: seq<Block>): string {
    if bs == [] then "" else bs[0].data + Flatten(bs[1..])
  }

  ghost predicate Fits(bs: seq<Block>) {
    forall i :: 0 <= i < |bs| ==> |bs[i].data| + bs[i].free <= BLOCK
  }

  lemma {:induction false} FlattenAppend(a: seq<Block>, b: seq<Block>)
    ensures Flatten(a + b) == Flatten(a) + Flatten(b)
  {
    if a == [] {
      assert a + b == b;
    } else {
      assert (a + b)[1..] == a[1..] + b;
      FlattenAppend(a[1..], b);
    }
  }

  /** The last block grows. */
  lemma FlattenLast(bs: seq<Block>, piece: string, free: nat)
    requires bs != []
    ensures var last := bs[|bs| - 1];
      Flatten(bs[|bs| - 1 := Block(last.data + piece, free)]) == Flatten(bs) + piece
  {
    var n := |bs| - 1;
    var b' := Block(bs[n].data + piece, free);
    assert bs == bs[..n] + [bs[n]] && bs[n := b'] == bs[..n] + [b'];
    FlattenAppend(bs[..n], [bs[n]]);
    FlattenAppend(bs[..n], [b']);
    assert Flatten([bs[n]]) == bs[n].data && Flatten([b']) == b'.data;
  }

  /** An empty block is added. */
  lemma FlattenNew(bs: seq<Block>, free: nat)
    ensures Flatten(bs + [Block("", free)]) == Flatten(bs)
  {
    FlattenAppend(bs, [Block("", free)]);
    assert Flatten([Block("", free)]) == "";
  }

  /** The same blocks, the last of them filled more or less */
  ghost predicate SameBlocks(bs: seq<Block>, r: seq<Block>) {
    && |r| == |bs| && (forall i :: 0 <= i < |bs| ==> |r[i].data| + r[i].free == |bs[i].data| + bs[i].free)
    && forall i :: 0 <= i < |bs| - 1 ==> r[i] == bs[i]
  }

  /** New blocks are of 10 MB, and a block is followed by a new one only when it is full. */
  ghost predicate Extends(bs: seq<Block>, r: seq<Block>) {
    && |r| >= |bs| && (forall i :: |bs| <= i < |r| ==> |r[i].data| + r[i].free == 10_485_760)
    && forall i :: 0 <= i < |r| - 1 ==> if i < |bs| - 1 then r[i] == bs[i] else r[i].free == 0
  }

  // Some piece goes into the last block, if there is one with room.
  method FillLast(bs: seq<Block>, s: string) returns (r: seq<Block>, rest: string)
    requires Fits(bs)
    ensures Fits(r) && Flatten(r) + rest == Flatten(bs) + s && |rest| <= |s| && SameBlocks(bs, r)
    ensures s != "" && bs != [] && bs[|bs| - 1].free > 0 ==> |rest| < |s|
    ensures rest == "" || r == [] || r[|r| - 1].free == 0
  {
    r, rest := bs, s;
    if r != [] {
      var block := r[|r| - 1];
      var n := if block.free < |s| then block.free else |s|;
      if n > 0 {
        FlattenLast(r, s[..n], block.free - n);
        Regroup(Flatten(r), s[..n], s[n..]);
        assert s[..n] + s[n..] == s;
        r := r[|r| - 1 := Block(block.data + s[..n], block.free - n)];
        rest := s[n..];
      }
    }
  }

  /** aofRewriteBufferAppend, on the list of blocks */
  method BufferAppend(bs: seq<Block>, s: string) returns (r: seq<Block>)
    requires Fits(bs)
    ensures Fits(r) && Flatten(r) == Flatten(bs) + s && Extends(bs, r)
  {
    r := bs;
    var rest := s;
    while |rest| > 0
      invariant Fits(r) && Flatten(r) + rest == Flatten(bs) + s && Extends(bs, r)
      decreases |rest|, if r != [] && r[|r| - 1].free > 0 then 0 else 1
    {
      r, rest := FillLast(r, rest);
      if |rest| > 0 {
        FlattenNew(r, BLOCK);
        r := r + [Block("", BLOCK)];
      }
    }
  }

  /** The pipe refuses the write that comes after `used` ones, which all took something. */
  ghost predicate RefusedAfter(accepts: seq<int>, used: nat) {
    && used <= |accepts| && (used == |accepts| || accepts[used] <= 0)
    && forall i :: 0 <= i < used ==> accepts[i] > 0
  }

  /** The pipe has room for every block. */
  ghost predicate Roomy(accepts: seq<int>, n: nat) {
    |accepts| >= n && forall i :: 0 <= i < n ==> accepts[i] >= BLOCK
  }

  /**
    aofChildWriteDiffData: blocks are written to the pipe from the first on; `accepts` tells what
    each write(2) takes, none once it is used up.  It ends when it must: with the stop flag, with no
    block left, or with a write that is refused; every write before that moves at least one byte.
  */
  method SendBlocks(bs: seq<Block>, stop: bool, accepts: seq<int>) returns (r: seq<Block>, sent: string)
    requires Fits(bs)
    ensures Fits(r) && sent + Flatten(r) == Flatten(bs) && (stop ==> r == bs && sent == "")
    ensures stop || r == [] || exists used :: RefusedAfter(accepts, used) && |sent| >= used
    ensures !stop && Roomy(accepts, |bs|) ==> r == []
  {
    r, sent := bs, "";
    var used := 0;
    while r != [] && !stop
      invariant Fits(r) && sent + Flatten(r) == Flatten(bs) && (stop ==> r == bs && sent == "")
      invariant used <= |accepts| && |sent| >= used && forall i :: 0 <= i < used ==> accepts[i] > 0
      invariant Roomy(accepts, |bs|) ==> used + |r| <= |bs|
      decreases |r|, |accepts| - used
    {
      if |r[0].data| > 0 {
        if used == |accepts| || accepts[used] <= 0 {
          assert RefusedAfter(accepts, used);
          return;
        }
        var n := if accepts[used] < |r[0].data| then accepts[used] else |r[0].data|;
        used := used + 1;
        SendPiece(r, n, sent);
        sent := sent + r[0].data[..n];
        r := r[0 := Block(r[0].data[n..], r[0].free)];
      }
      if |r[0].data| == 0 {
        assert r[0].data + Flatten(r[1..]) == Flatten(r[1..]);
        r := r[1..];
      }
    }
  }

  lemma SendPiece(r: seq<Block>, n: nat, sent: string)
    requires r != [] && n <= |r[0].data|
    ensures sent + r[0].data[..n] + Flatten(r[0 := Block(r[0].data[n..], r[0].free)]) == sent + Flatten(r)
  {
    var r' := r[0 := Block(r[0].data[n..], r[0].free)];
    assert r'[1..] == r[1..];
    assert r[0].data == r[0].data[..n] + r[0].data[n..];
    Regroup(r[0].data[..n], r[0].data[n..], Flatten(r[1..]));
    Regroup(sent, r[0].data[..n], Flatten(r'));
  }

  /** Every write that is needed is whole. */
  ghost predicate EachWhole(bs: seq<Block>, whole: seq<bool>) {
    forall i :: 0 <= i < |bs| && bs[i].data != "" ==> i < |whole| && whole[i]
  }

  /**
    aofRewriteBufferWrite: all blocks to the new file, or -1 as soon as one is not written whole;
    `whole` tells of each write whether it is
  */
  method WriteBlocks(bs: seq<Block>, whole: seq<bool>) returns (count: int, text: string)
    ensures count != -1 <==> EachWhole(bs, whole)
    ensures count != -1 ==> text == Flatten(bs) && count == |text|
  {
    count, text := 0, "";
    var i := 0;
    assert bs[0..] == bs;
    while i < |bs|
      invariant i <= |bs| && text + Flatten(bs[i..]) == Flatten(bs) && count == |text|
      invariant forall j :: 0 <= j < i && bs[j].data != "" ==> j < |whole| && whole[j]
    {
      WriteOne(bs, i, text);
      if |bs[i].data| > 0 {
        if i >= |whole| || !whole[i] {
          return -1, text;
        }
        text := text + bs[i].data;
        count := count + |bs[i].data|;
      }
      i := i + 1;
    }
  }

  lemma WriteOne(bs: seq<Block>, i: nat, text: string)
    requires i < |bs|
    ensures text + Flatten(bs[i..]) == (text + bs[i].data) + Flatten(bs[i + 1..])
    ensures bs[i].data == "" ==> text + bs[i].data == text
  {
    assert bs[i..][1..] == bs[i + 1..];
    Regroup(text, bs[i].data, Flatten(bs[i + 1..]));
  }

  // catAppendOnlyExpireAtCommand
  method CatExpireAt(buf: string, c: Command, now: int) returns (r: string)
    requires |c| >= 3
    ensures r == buf + Encode(ExpireAt(c, now))
  {
    var when := Strtol(c[2]);
    if InSeconds(c) {
      when := Int64(when * 1000);
    }
    if FromNow(c) {
      when := Int64(when + now);
    }
    r := CatCommand(buf, ["PEXPIREAT", c[1], ShowInt(when)]);
  }

  // Lines 545-562
  method CatLogged(buf: string, c: Command, now: int) returns (r: string)
    requires HasArguments(c)
    ensures r == buf + EncodeAll(Logged(c, now))
  {
    if IsExpire(c) {
      r := CatExpireAt(buf, c, now);
      EncodeOne(ExpireAt(c, now));
    } else if IsSetex(c) {
      var store := ["SET", c[1], c[3]];
      r := CatCommand(buf, store);
      r := CatExpireAt(r, c, now);
      EncodeTwo(store, ExpireAt(c, now));
      Regroup(buf, Encode(store), Encode(ExpireAt(c, now)));
    } else {
      r := CatCommand(buf, c);
      EncodeOne(c);
    }
  }

  lemma EncodeTwo(c: Command, d: Command)
    ensures EncodeAll([c, d]) == Encode(c) + Encode(d)
  {
    EncodeOne(c);
    EncodeOne(d);
    EncodeAppend([c], [d]);
    assert [c] + [d] == [c, d];
  }

  /** How far the child has come: writing its snapshot, having asked the parent to stop, having been told so, done. */
  datatype Phase = Writing | Asked | Agreed | Finished

  /** The data pipe, and how many '!' are in the two others. */
  datatype Pipes = Pipes(data: string, asks: nat, acks: nat)

  /** The text that rebuilds the dataset at the fork, aof_child_diff, and the file when it is complete. */
  datatype Child = Child(phase: Phase, snap: string, diff: string, temp: string)

  /** A step of the parent or of the child, with what the system calls in it return. */
  datatype Action =
    | DoExecute(db: nat, command: Command, ran: int, fed: int)
    | DoFlush(w: int, undone: bool)
    | DoFork(busy: bool, piped: bool, forked: bool, text: string, commands: seq<Command>)
    | DoPump(accepts: seq<int>)
    | DoRead(n: nat)
    | DoAsk
    | DoAgree(delivered: bool)
    | DoAgreed
    | DoFinish
    | DoEnd(success: bool, open: bool, whole: seq<bool>, renamed: bool)
    | DoStop(w: int, undone: bool)
    | DoStart(open: bool, busy: bool, piped: bool, forked: bool, text: string, commands: seq<Command>)

  class Server {
    // the parent: aof_state, whether aof_fd is set, aof_buf, aof_selected_db, aof_current_size, whether
    // aof_child_pid is set, aof_rewrite_buf_blocks and aof_stop_sending_diff
    var state: AofState
    var fd: bool
    var buf: string
    var selected: int
    var size: int
    var rewriting: bool
    var blocks: seq<Block>
    var stop: bool

    // the append only file, the pipes and the child
    var file: string
    var pipes: Pipes
    var child: Child

    // history: the texts that result from all that has happened
    ghost var texts: Texts

    /** Every byte is where it should be. */
    ghost predicate Valid()
      reads this
    {
      RewriteValid() && (state.On? ==> size == |file| && file + buf == texts.logged)
    }

    ghost predicate RewriteValid()
      reads this
    {
      && (rewriting ==> child.diff + pipes.data + Flatten(blocks) == texts.fed)
      && (!rewriting ==> blocks == [])
      && Fits(blocks)
      && (rewriting && (pipes.acks > 0 || child.phase.Agreed? || child.phase.Finished?) ==> stop)
      && (rewriting && child.phase.Finished? ==> pipes.data == "" && child.temp == child.snap + child.diff)
      && (state.Off? ==> selected == -1) && (!state.Off? ==> fd)
      && state == texts.state && rewriting == texts.rewriting && selected == texts.selected && child.snap == texts.snap
    }

    /** A server with an empty dataset and an empty file */
    constructor ()
      ensures Valid() && texts == NOTHING && state.On? && buf == ""
    {
      fd := true;
      state, buf, selected, size, rewriting, blocks, stop := On, "", -1, 0, false, [], false;
      file, pipes, child := "", Pipes("", 0, 0), Child(Writing, "", "", "");
      texts := NOTHING;
    }

    /** The child takes some bytes from the pipe: one read of aofReadDiffFromParent */
    method ChildRead(n: nat)
      requires Valid() && rewriting && !child.phase.Finished? && n <= |pipes.data|
      modifies `pipes, `child
      ensures Valid() && pipes.data == old(pipes.data)[n..]
    {
      assert child.diff + pipes.data == child.diff + pipes.data[..n] + pipes.data[n..];
      child, pipes := child.(diff := child.diff + pipes.data[..n]), pipes.(data := pipes.data[n..]);
    }

    /** The child asks the parent to stop sending. */
    method ChildAsk()
      requires Valid() && rewriting && child.phase.Writing?
      modifies `pipes, `child
      ensures Valid() && pipes.asks == old(pipes.asks) + 1 && child.phase == Asked
    {
      pipes, child := pipes.(asks := pipes.asks + 1), child.(phase := Asked);
    }

    /** aofChildPipeReadable; the acknowledgement may fail to be written */
    method ParentAgree(delivered: bool)
      requires Valid() && rewriting && pipes.asks > 0
      modifies `pipes, `stop
      ensures Valid() && stop && pipes.asks == old(pipes.asks) - 1
      ensures pipes.acks == old(pipes.acks) + if delivered then 1 else 0
    {
      stop, pipes := true, pipes.(asks := pipes.asks - 1);
      if delivered {
        pipes := pipes.(acks := pipes.acks + 1);
      }
    }

    /** The child has read the acknowledgement. */
    method ChildAgreed()
      requires Valid() && rewriting && child.phase.Asked? && pipes.acks > 0
      modifies `pipes, `child
      ensures Valid() && pipes.acks == old(pipes.acks) - 1 && child.phase == Agreed
    {
      pipes, child := pipes.(acks := pipes.acks - 1), child.(phase := Agreed);
    }

    /** aofChildWriteDiffData */
    method Pump(accepts: seq<int>)
      requires Valid() && rewriting
      modifies `blocks, `pipes
      ensures Valid() && (stop ==> pipes.data == old(pipes.data) && blocks == old(blocks))
    {
      var r, sent := SendBlocks(blocks, stop, accepts);
      Regroup(child.diff, pipes.data, sent);
      Regroup(child.diff + pipes.data, sent, Flatten(r));
      assert stop ==> pipes.data + sent == pipes.data;
      blocks, pipes := r, pipes.(data := pipes.data + sent);
    }

    /** The child reads the pipe until it is empty and completes its file. */
    method ChildFinish()
      requires Valid() && rewriting && child.phase.Agreed?
      modifies `pipes, `child
      ensures Valid() && child.phase == Finished && child.temp + Flatten(blocks) == child.snap + texts.fed
    {
      while |pipes.data| > 0
        invariant Valid()
        decreases |pipes.data|
      {
        ChildRead(|pipes.data|);
      }
      child := child.(temp := child.snap + child.diff, phase := Finished);
      assert child.diff + pipes.data == child.diff;
      Regroup(child.snap, child.diff, Flatten(blocks));
    }

    // What is fed for a command: lines 531-562
    method EntryText(db: nat, c: Command, now: int) returns (text: string)
      requires HasArguments(c)
      ensures text == EncodeAll(Entry(selected, db, Logged(c, now)))
    {
      text := "";
      if db != selected {
        text := "*2\r\n$6\r\nSELECT\r\n$" + Show(|Show(db)|) + "\r\n" + Show(db) + "\r\n";
        SelectText(Show(db));
      }
      text := CatLogged(text, c, now);
      EncodeEntry(selected, db, Logged(c, now));
    }

    /** feedAppendOnlyFile, for a command that was executed at `ran` while the file is not switched off */
    method Feed(db: nat, c: Command, ghost ran: int, now: int)
      requires Valid() && db <= INT_MAX && HasArguments(c) && !state.Off?
      modifies `selected, `buf, `blocks, `texts
      ensures Valid() && texts == Step(old(texts), Executed(db, c, ran, now))
    {
      var text := EntryText(db, c, now);
      texts := Step(texts, Executed(db, c, ran, now));
      selected := db;
      if state.On? {
        Regroup(file, buf, text);
        buf := buf + text;
      }
      if rewriting {
        var r := BufferAppend(blocks, text);
        Regroup(child.diff + pipes.data, Flatten(blocks), text);
        blocks := r;
      }
    }

    /** A command has been executed at `ran`; the clock is read again at `now` when it is fed. */
    method Execute(db: nat, c: Command, ghost ran: int, now: int)
      requires Valid() && db <= INT_MAX && HasArguments(c)
      modifies `selected, `buf, `blocks, `texts
      ensures Valid() && texts == Step(old(texts), Executed(db, c, ran, now))
    {
      if state.Off? {
        texts := Step(texts, Executed(db, c, ran, now));
      } else {
        Feed(db, c, ran, now);
      }
    }

    ghost function Log(): AofWrite.Log
      reads this
    {
      AofWrite.Log(file, buf, size)
    }

    /**
      flushAppendOnlyFile, after the write; `exited` when the server gives up.  Nothing is lost with a
      buffer of at most INT_MAX bytes, which AofWrite.ConservesIffShort shows to be the exact condition.
    */
    method Flush(w: int, undone: bool, always: bool) returns (exited: bool)
      requires Valid() && !state.Off? && -1 <= w <= |buf|
      modifies `file, `buf, `size
      ensures RewriteValid()
      ensures if old(buf) == "" then Log() == old(Log()) && !exited
              else AofWrite.Flushed(Log(), exited) == AofWrite.Flush(old(Log()), w, undone, always)
      ensures !exited && (state.On? ==> |old(buf)| <= INT_MAX) ==> Valid()
      ensures exited <==> old(buf) != "" && always && w != Int32(|old(buf)|)
      ensures exited && state.On? && |old(buf)| <= INT_MAX ==> old(file) <= file <= texts.logged
    {
      if |buf| == 0 {
        return false;
      }
      ghost var before := Log();
      exited := Write(w, undone, always);
      if state.On? && |before.buf| <= INT_MAX {
        AofWrite.FlushConserves(before, w, undone, always);
      }
    }

    // Lines 340-443, for a buffer that is not empty
    method Write(w: int, undone: bool, always: bool) returns (exited: bool)
      requires -1 <= w <= |buf| && buf != ""
      modifies `file, `buf, `size
      ensures AofWrite.Flushed(Log(), exited) == AofWrite.Flush(old(Log()), w, undone, always)
    {
      var nwritten := w;
      if w > 0 {
        file := file + buf[..w];
      }
      if nwritten != Int32(|buf|) {
        if nwritten != -1 && undone {
          file := AofWrite.Resize(file, size);
          nwritten := -1;
        }
        exited := always;
        if !exited && nwritten > 0 {
          size := size + nwritten;
          buf := AofWrite.SdsRange(buf, Int32(nwritten), -1);
        }
      } else {
        exited := false;
        size, buf := size + nwritten, "";
      }
    }

    /**
      rewriteAppendOnlyFileBackground: the child begins to write the dataset as it is now, unless another
      child is at work or the pipes or the process cannot be made.
    */
    method Fork(busy: bool, piped: bool, forked: bool, text: string, ghost commands: seq<Command>) returns (ok: bool)
      requires Valid()
      modifies `pipes, `child, `stop, `rewriting, `selected, `texts
      ensures Valid() && (ok <==> !old(rewriting) && !busy && piped && forked)
      ensures texts == if ok then Step(old(texts), Forked(text, commands)) else old(texts)
      ensures ok ==> rewriting && child == Child(Writing, text, "", "") && pipes == Pipes("", 0, 0) && !stop
      ensures !ok && old(rewriting) ==> child == old(child) && pipes == old(pipes) && stop == old(stop)
    {
      if rewriting || busy {
        return false;
      }
      if !piped {
        return false;
      }
      pipes, stop := Pipes("", 0, 0), false;
      if !forked {
        return false;
      }
      assert "" + "" + Flatten(blocks) == "";
      child := Child(Writing, text, "", "");
      rewriting, selected, texts := true, -1, Step(texts, Forked(text, commands));
      return true;
    }

    /**
      backgroundRewriteDoneHandler: a finished rewrite is completed and becomes the log, unless the
      child failed, its file cannot be opened, a block cannot be written or the file cannot be renamed.
    */
    method RewriteDone(success: bool, open: bool, whole: seq<bool>, renamed: bool) returns (switched: bool)
      requires Valid() && rewriting && (success ==> child.phase.Finished?)
      modifies this
      ensures Valid() && texts == Step(old(texts), if switched then Switched else Ended)
      ensures switched <==> success && open && EachWhole(old(blocks), whole) && renamed
      ensures switched ==> file == old(child.snap) + old(texts.fed) && (state.On? ==> buf == "")
      ensures !switched ==> file == old(file) && buf == old(buf)
    {
      switched := false;
      if success && open {
        var count, text := WriteBlocks(blocks, whole);
        switched := count != -1 && renamed;
        if switched {
          Completed();
          Switch(child.temp + text);
        }
      }
      texts := Step(texts, if switched then Switched else Ended);
      blocks, rewriting := [], false;
      assert file + "" == file;
    }

    // Lines 1568-1595: the new file is used from now on if aof_fd is set
    method Switch(text: string)
      modifies `file, `selected, `size, `buf, `state
      ensures file == text && state == if old(state).WaitRewrite? then On else old(state)
      ensures if fd then selected == -1 && size == |file| && buf == ""
              else selected == old(selected) && size == old(size) && buf == old(buf)
    {
      file := text;
      if fd {
        selected, size, buf := -1, |file|, "";
      }
      if state.WaitRewrite? {
        state := On;
      }
    }

    /** A finished child's file and the remaining blocks are the snapshot and all that was fed. */
    lemma Completed()
      requires Valid() && rewriting && child.phase.Finished?
      ensures child.temp + Flatten(blocks) == child.snap + texts.fed
    {
      assert child.diff + pipes.data == child.diff;
      Regroup(child.snap, child.diff, Flatten(blocks));
    }

    /** stopAppendOnly: the buffer is flushed, and a running child is killed. */
    method Stop(w: int, undone: bool, always: bool) returns (exited: bool)
      requires Valid() && !state.Off? && -1 <= w <= |buf|
      modifies this
      ensures if exited then always else Valid() && texts == Step(old(texts), Stopped) && !fd
    {
      exited := Flush(w, undone, always);
      if !exited {
        texts := Step(texts, Stopped);
        fd, selected, state, blocks, rewriting := false, -1, Off, [], false;
      }
    }

    /**
      startAppendOnly: the file is on again when a rewrite has succeeded; with another child at work it
      waits.  When the rewrite cannot be started the file is closed, but aof_fd stays set.
    */
    method Start(open: bool, busy: bool, piped: bool, forked: bool, text: string, ghost commands: seq<Command>)
      returns (ok: bool)
      requires Valid() && state.Off? && (busy ==> !rewriting)
      modifies this
      ensures Valid()
      ensures ok <==> open && (busy || (!old(rewriting) && piped && forked))
      ensures !ok ==> texts == old(texts) && state.Off?
      ensures ok ==> texts == Step(if busy then old(texts) else Step(old(texts), Forked(text, commands)), Started)
      ensures fd && state.Off? <==> open && !ok
    {
      fd := open;
      if !open {
        return false;
      }
      if !busy {
        ok := Fork(false, piped, forked, text, commands);
        if !ok {
          return false;
        }
      }
      texts := Step(texts, Started);
      state := WaitRewrite;
      return true;
    }

    // --- schedules ---------------------------------------------------------------------------

    /** May the parent or the child do this now? */
    predicate CanDo(a: Action)
      reads this
    {
      match a
      case DoExecute(db, c, _, _) => db <= INT_MAX && Writable(c) && !IsSelect(c) && Accepted(c)
      case DoFlush(w, _) => !state.Off? && -1 <= w <= |buf| && (state.On? ==> |buf| <= INT_MAX)
      case DoFork(_, _, _, _, _) => true
      case DoPump(_) => rewriting
      case DoRead(n) => rewriting && !child.phase.Finished? && n <= |pipes.data|
      case DoAsk => rewriting && child.phase.Writing?
      case DoAgree(_) => rewriting && pipes.asks > 0
      case DoAgreed => rewriting && child.phase.Asked? && pipes.acks > 0
      case DoFinish => rewriting && child.phase.Agreed?
      case DoEnd(success, _, _, _) => rewriting && (success ==> child.phase.Finished?)
      case DoStop(w, _) => !state.Off? && -1 <= w <= |buf|
      case DoStart(_, busy, _, _, _, _) => state.Off? && (busy ==> !rewriting)
    }

    method Perform(a: Action) returns (ghost events: seq<Event>)
      requires Valid() && CanDo(a)
      modifies this
      ensures Valid() && texts == Steps(old(texts), events) && AllEnabled(old(texts), events)
    {
      ghost var was := texts;
      events := [];
      match a {
        case DoExecute(db, c, ran, fed) =>
          Execute(db, c, ran, fed);
          events := [Executed(db, c, ran, fed)];
        case DoFlush(w, undone) =>
          var _ := Flush(w, undone, false);
        case DoFork(busy, piped, forked, text, commands) =>
          var ok := Fork(busy, piped, forked, text, commands);
          events := if ok then [Forked(text, commands)] else [];
        case DoPump(accepts) =>
          Pump(accepts);
        case DoRead(n) =>
          ChildRead(n);
        case DoAsk =>
          ChildAsk();
        case DoAgree(delivered) =>
          ParentAgree(delivered);
        case DoAgreed =>
          ChildAgreed();
        case DoFinish =>
          ChildFinish();
        case DoEnd(success, open, whole, renamed) =>
          var switched := RewriteDone(success, open, whole, renamed);
          events := [if switched then Switched else Ended];
        case DoStop(w, undone) =>
          var _ := Stop(w, undone, false);
          events := [Stopped];
        case DoStart(open, busy, piped, forked, text, commands) =>
          var ok := Start(open, busy, piped, forked, text, commands);
          events := if !ok then [] else if busy then [Started] else [Forked(text, commands), Started];
      }
      ShortSteps(was, events);
    }

    /** Any schedule of the parent and the child: what happened accounts for every byte. */
    method Run(schedule: seq<Action>) returns (ghost history: seq<Event>)
      requires Valid() && texts == NOTHING
      modifies this
      ensures Valid() && texts == Steps(NOTHING, history) && AllEnabled(NOTHING, history)
    {
      history := [];
      var i := 0;
      while i < |schedule|
        invariant Valid() && texts == Steps(NOTHING, history) && AllEnabled(NOTHING, history)
      {
        if CanDo(schedule[i]) {
          ghost var events := Perform(schedule[i]);
          MoreSteps(NOTHING, history, events);
          history := history + events;
        }
        i := i + 1;
      }
    }
  }

  /** A server that is switched off and cannot be switched on again: its descriptor is closed but set. */
  method StaleDescriptor() returns (s: Server, ok: bool)
    ensures s.Valid() && s.state.Off? && s.fd && !ok
  {
    s := new Server();
    var exited := s.Stop(0, false, false);
    ok := s.Start(true, false, true, false, "", []);
  }

  /**
    Loading the file together with the buffer rebuilds the dataset that the clients' calls have left, whatever
    the clock says then, if the SETs with a time to live are replayed at the time they were executed at.
  */
  lemma ServerRestores(s: Server, history: seq<Event>, others: Others, calls: seq<Call>, known: string -> bool,
                       ts: seq<int>)
    requires s.Valid() && s.state.On? && s.texts == Steps(NOTHING, history) && AllEnabled(NOTHING, history)
    requires AllTruthful(NOTHING, history, others)
    requires s.texts.m.live == AllPassedOn(others, NEW, calls)
    requires forall i :: 0 <= i < |calls| ==> HasArguments(calls[i].command)
    requires s.texts.m.log != [] && Loadable(Plain(s.texts.m.log), known)
    requires |ts| == |s.texts.m.log| && TimesKept(s.texts.m.log, ts)
    ensures var l := LoadFile(s.file + s.buf, known, true);
      && l.outcome == Loaded && |l.executed| == |ts|
      && Eval(others, NEW, Replay(0, StampEach(l.executed, ts))) == ServeAll(others, NEW, calls)
  {
    var t := s.texts;
    StaysFaithful(NOTHING, history, others);
    LogRestores(t.logged, t.m.log, t.selected, t.m.live, others, known, true, ts);
    PassedOnIsEnough(others, NEW, calls);
  }
}
