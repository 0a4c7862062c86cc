/** The NAND timing of ssd.c: when a command occupies its LUN and its channel. */
module NandTiming {
  import opened Arith
  import opened ChannelModel

  datatype NandOp = NandRead | NandWrite | NandErase | NandNop

  /** `struct nand_cmd` for a mapped page whose cells are of type `cell`. */
  datatype NandCmd = NandCmd(op: NandOp, stime: nat, cell: nat, xferSize: nat, interleavePciDma: bool)

  /** The latencies of `struct ssdparams`, the read latencies by cell type. */
  datatype Latencies = Latencies(rd4kb: seq<nat>, rd: seq<nat>, wr: nat, er: nat, maxChXfer: nat)

  /** A time during which a command occupies a LUN. */
  datatype Busy = Busy(start: nat, end: nat)

  /** The commands of a LUN follow each other without overlap, and the last ends at `avail`. */
  ghost predicate InOrder(log: seq<Busy>, avail: nat) {
    && avail == (if log == [] then 0 else log[|log| - 1].end)
    && (forall i :: 0 <= i < |log| ==> log[i].start <= log[i].end <= avail)
    && (forall i, j :: 0 <= i < j < |log| ==> log[i].end <= log[j].start)
  }

  lemma Extend(log: seq<Busy>, avail: nat, b: Busy)
    requires InOrder(log, avail) && avail <= b.start <= b.end
    ensures InOrder(log + [b], b.end)
  {
  }

  // ---------- the transfer of a read ----------

  ghost predicate CanServe(c: Chan, now: nat) {
    ChanOk(c) && c.curTime <= now
  }

  /** The size of piece `i` of a transfer of `size` bytes: `maxXfer`, and the rest for the last one. */
  function PieceSize(size: nat, maxXfer: nat, i: nat): nat
    requires maxXfer > 0 && i < DivRoundUp(size, maxXfer)
  {
    if i + 1 < DivRoundUp(size, maxXfer) then maxXfer else size - i * maxXfer
  }

  /** What is left before piece `i`. */
  function LeftBefore(size: nat, maxXfer: nat, i: nat): nat
    requires maxXfer > 0
  {
    if i < DivRoundUp(size, maxXfer) then size - i * maxXfer else 0
  }

  lemma PieceStep(size: nat, maxXfer: nat, i: nat)
    requires maxXfer > 0
    ensures LeftBefore(size, maxXfer, 0) == size && (LeftBefore(size, maxXfer, i) > 0 <==> i < DivRoundUp(size, maxXfer))
    ensures i < DivRoundUp(size, maxXfer) ==>
      && PieceSize(size, maxXfer, i) == Min(LeftBefore(size, maxXfer, i), maxXfer)
      && LeftBefore(size, maxXfer, i + 1) == LeftBefore(size, maxXfer, i) - PieceSize(size, maxXfer, i)
  {
    var k := DivRoundUp(size, maxXfer);
    if i < k {
      MulMono(i, k - 1, maxXfer);
      Distribute(i, 1, maxXfer);
      if i + 1 < k {
        MulMono(i + 1, k - 1, maxXfer);
      }
    }
  }

  function SumOfPieces(size: nat, maxXfer: nat, n: nat): nat
    requires maxXfer > 0 && n <= DivRoundUp(size, maxXfer)
  {
    if n == 0 then 0 else SumOfPieces(size, maxXfer, n - 1) + PieceSize(size, maxXfer, n - 1)
  }

  /** The pieces have between 1 and `maxXfer` bytes, and together all of them. */
  lemma PiecesAddUp(size: nat, maxXfer: nat)
    requires maxXfer > 0
    ensures SumOfPieces(size, maxXfer, DivRoundUp(size, maxXfer)) == size
    ensures forall i: nat :: i < DivRoundUp(size, maxXfer) ==> 0 < PieceSize(size, maxXfer, i) <= maxXfer
  {
    hide PieceSize, SumOfPieces, LeftBefore, DivRoundUp;
    var k := DivRoundUp(size, maxXfer);
    forall i: nat | i < k
      ensures 0 < PieceSize(size, maxXfer, i) <= maxXfer
    {
      PieceStep(size, maxXfer, i);
    }
    PieceStep(size, maxXfer, 0);
    PieceStep(size, maxXfer, k);
    FirstPieces(size, maxXfer, k);
  }

  lemma {:induction false} FirstPieces(size: nat, maxXfer: nat, n: nat)
    requires maxXfer > 0 && n <= DivRoundUp(size, maxXfer)
    ensures SumOfPieces(size, maxXfer, n) + LeftBefore(size, maxXfer, n) == size
  {
    hide PieceSize, LeftBefore, DivRoundUp;
    PieceStep(size, maxXfer, 0);
    if n > 0 {
      FirstPieces(size, maxXfer, n - 1);
      PieceStep(size, maxXfer, n - 1);
    }
  }

  /** The course of a read transfer: the channels before each piece and after the last, the times at which the
      pieces are requested and the last one ends, and when each piece is complete for the host. */
  datatype Transfer = Transfer(ch: seq<Chan>, pcie: seq<Chan>, times: seq<nat>, done: seq<nat>)

  /** Piece `i` of `n` bytes is requested when the one before it has ended, and with interleaving it is sent on
      over PCIe from its end on. */
  ghost predicate Sent(t: Transfer, i: nat, n: nat, interleave: bool, now: nat) {
    && i + 1 < |t.ch| == |t.pcie| == |t.times| == |t.done| + 1
    && CanServe(t.ch[i], now) && CanServe(t.pcie[i], now)
    && t.times[i + 1] == EndTime(t.ch[i], now, t.times[i], n)
    && t.ch[i + 1] == After(t.ch[i], now, t.times[i], n)
    && t.pcie[i + 1] == (if interleave then After(t.pcie[i], now, t.times[i + 1], n) else t.pcie[i])
    && t.done[i] == (if interleave then EndTime(t.pcie[i], now, t.times[i + 1], n) else t.times[i + 1])
  }

  /** The first `k` pieces of the data have been sent, from `stime` on. */
  ghost predicate SentUpTo(t: Transfer, k: nat, ch: Chan, pcie: Chan, maxXfer: nat, stime: nat, size: nat,
                           interleave: bool, now: nat)
    requires maxXfer > 0
  {
    && |t.ch| == |t.pcie| == |t.times| == |t.done| + 1 == k + 1
    && t.ch[0] == ch && t.pcie[0] == pcie && t.times[0] == stime
    && k <= DivRoundUp(size, maxXfer)
    && forall i: nat :: i < k ==> Sent(t, i, PieceSize(size, maxXfer, i), interleave, now)
  }

  /** The course of the transfer of `size` bytes. */
  ghost predicate ReadOutAs(t: Transfer, ch: Chan, pcie: Chan, maxXfer: nat, stime: nat, size: nat, interleave: bool,
                            now: nat)
    requires maxXfer > 0
  {
    SentUpTo(t, DivRoundUp(size, maxXfer), ch, pcie, maxXfer, stime, size, interleave, now)
  }

  /** What the transfer leaves when it is over. */
  ghost predicate Leaves(t: Transfer, ch: Chan, pcie: Chan, end: nat, completed: nat) {
    && |t.ch| > 0 && |t.pcie| > 0 && |t.times| > 0 && |t.done| > 0
    && ch == t.ch[|t.ch| - 1] && pcie == t.pcie[|t.pcie| - 1]
    && end == t.times[|t.times| - 1] && completed == t.done[|t.done| - 1]
  }

  function Then(t: Transfer, ch: Chan, pcie: Chan, end: nat, completed: nat): Transfer {
    Transfer(t.ch + [ch], t.pcie + [pcie], t.times + [end], t.done + [completed])
  }

  /** One more piece. */
  lemma SentNext(t: Transfer, k: nat, ch: Chan, pcie: Chan, maxXfer: nat, stime: nat, size: nat, interleave: bool, now: nat,
                 u: Transfer)
    requires maxXfer > 0 && SentUpTo(t, k, ch, pcie, maxXfer, stime, size, interleave, now)
    requires k < DivRoundUp(size, maxXfer) && |u.ch| == |u.pcie| == |u.times| == |u.done| + 1 == k + 2
    requires u.ch[..k + 1] == t.ch && u.pcie[..k + 1] == t.pcie && u.times[..k + 1] == t.times && u.done[..k] == t.done
    requires Sent(u, k, PieceSize(size, maxXfer, k), interleave, now)
    ensures SentUpTo(u, k + 1, ch, pcie, maxXfer, stime, size, interleave, now)
  {
    hide PieceSize, DivRoundUp, EndTime, After, CanServe;
    assert u.ch[0] == t.ch[0] && u.pcie[0] == t.pcie[0] && u.times[0] == t.times[0];
    forall i: nat | i < k
      ensures Sent(u, i, PieceSize(size, maxXfer, i), interleave, now)
    {
      assert Sent(t, i, PieceSize(size, maxXfer, i), interleave, now);
      assert u.ch[i] == t.ch[i] && u.ch[i + 1] == t.ch[i + 1] && u.pcie[i] == t.pcie[i] && u.pcie[i + 1] == t.pcie[i + 1];
      assert u.times[i] == t.times[i] && u.times[i + 1] == t.times[i + 1] && u.done[i] == t.done[i];
    }
  }

  /** What is given determines the course of the transfer. */
  lemma TransferUnique(t: Transfer, u: Transfer, ch: Chan, pcie: Chan, maxXfer: nat, stime: nat, size: nat,
                       interleave: bool, now: nat)
    requires maxXfer > 0 && ReadOutAs(t, ch, pcie, maxXfer, stime, size, interleave, now)
    requires ReadOutAs(u, ch, pcie, maxXfer, stime, size, interleave, now)
    ensures t == u
  {
    hide PieceSize, DivRoundUp, EndTime, After, CanServe;
    var k := DivRoundUp(size, maxXfer);
    forall i: nat | i <= k
      ensures t.ch[i] == u.ch[i] && t.pcie[i] == u.pcie[i] && t.times[i] == u.times[i]
      ensures i > 0 ==> t.done[i - 1] == u.done[i - 1]
    {
      SameUpTo(t, u, k, i, ch, pcie, maxXfer, stime, size, interleave, now);
    }
    forall i: nat | i < k
      ensures t.done[i] == u.done[i]
    {
      SameUpTo(t, u, k, i + 1, ch, pcie, maxXfer, stime, size, interleave, now);
    }
    assert t.ch == u.ch && t.pcie == u.pcie && t.times == u.times && t.done == u.done;
  }

  lemma {:induction false} SameUpTo(t: Transfer, u: Transfer, k: nat, i: nat, ch: Chan, pcie: Chan, maxXfer: nat, stime: nat,
                                    size: nat, interleave: bool, now: nat)
    requires maxXfer > 0 && SentUpTo(t, k, ch, pcie, maxXfer, stime, size, interleave, now)
    requires SentUpTo(u, k, ch, pcie, maxXfer, stime, size, interleave, now) && i <= k
    ensures t.ch[i] == u.ch[i] && t.pcie[i] == u.pcie[i] && t.times[i] == u.times[i]
    ensures i > 0 ==> t.done[i - 1] == u.done[i - 1]
  {
    hide PieceSize, DivRoundUp, EndTime, After, CanServe;
    if i > 0 {
      SameUpTo(t, u, k, i - 1, ch, pcie, maxXfer, stime, size, interleave, now);
      assert Sent(t, i - 1, PieceSize(size, maxXfer, i - 1), interleave, now);
      assert Sent(u, i - 1, PieceSize(size, maxXfer, i - 1), interleave, now);
    }
  }

  lemma {:induction false} TimesGrow(t: Transfer, k: nat, i: nat, ch: Chan, pcie: Chan, maxXfer: nat, stime: nat, size: nat,
                                     interleave: bool, now: nat)
    requires maxXfer > 0 && SentUpTo(t, k, ch, pcie, maxXfer, stime, size, interleave, now) && i <= k
    ensures t.times[i] >= stime && (!interleave ==> t.pcie[i] == pcie)
  {
    hide PieceSize, DivRoundUp, EndTime, After, CanServe;
    if i > 0 {
      TimesGrow(t, k, i - 1, ch, pcie, maxXfer, stime, size, interleave, now);
      assert Sent(t, i - 1, PieceSize(size, maxXfer, i - 1), interleave, now);
    }
  }

  /** A read is not complete for the host before its LUN is free, and only with interleaving later; without it the PCIe
      link is not used. */
  lemma ReadEnds(t: Transfer, ch: Chan, pcie: Chan, maxXfer: nat, stime: nat, size: nat, interleave: bool, now: nat,
                 chEnd: Chan, pcieEnd: Chan, end: nat, completed: nat)
    requires maxXfer > 0 && size > 0 && ReadOutAs(t, ch, pcie, maxXfer, stime, size, interleave, now)
    requires Leaves(t, chEnd, pcieEnd, end, completed)
    ensures completed >= end >= stime && (!interleave ==> completed == end && pcieEnd == pcie)
  {
    var k := DivRoundUp(size, maxXfer);
    PieceStep(size, maxXfer, 0);
    hide PieceSize, DivRoundUp, LeftBefore, EndTime, After, CanServe;
    TimesGrow(t, k, k, ch, pcie, maxXfer, stime, size, interleave, now);
    assert Sent(t, k - 1, PieceSize(size, maxXfer, k - 1), interleave, now);
  }

  predicate CommandOk(lat: Latencies, c: NandCmd) {
    c.cell < |lat.rd| == |lat.rd4kb| && lat.maxChXfer > 0 && (c.op.NandRead? ==> c.xferSize > 0)
  }

  // ---------- the LUNs ----------

  /** The channel can take requests at clock time `now`. */
  ghost predicate Ready(ch: Channel, now: nat)
    reads ch, ch.avail
  {
    ch.Valid() && CanServe(ch.Ch(), now)
  }

  class Lun {
    var nextAvail: nat
    ghost var log: seq<Busy>

    ghost predicate Valid()
      reads this
    {
      InOrder(log, nextAvail)
    }

    constructor ()
      ensures Valid() && nextAvail == 0 && log == []
    {
      nextAvail := 0;
      log := [];
    }

    /** `ssd_advance_nand`: the command starts when it is due and the LUN is free. A read uses the channel after
        its cells, a write before, and the LUN is busy until both are done. The clock reads `now` during the
        call. */
    method AdvanceNand(ch: Channel, pcie: Channel, lat: Latencies, c: NandCmd, now: nat)
      returns (completed: nat, ghost t: Transfer)
      requires Valid() && ch != pcie && ch.avail != pcie.avail && Ready(ch, now) && Ready(pcie, now)
      requires CommandOk(lat, c)
      modifies this, ch, ch.avail, pcie, pcie.avail
      ensures Valid() && Ready(ch, now) && Ready(pcie, now)
      ensures var start := Max(old(nextAvail), if c.stime == 0 then now else c.stime);
        && log == old(log) + [Busy(start, nextAvail)]
        && match c.op
           case NandRead =>
             && ReadOutAs(t, old(ch.Ch()), old(pcie.Ch()), lat.maxChXfer,
                          start + (if c.xferSize == 4096 then lat.rd4kb[c.cell] else lat.rd[c.cell]), c.xferSize,
                          c.interleavePciDma, now)
             && Leaves(t, ch.Ch(), pcie.Ch(), nextAvail, completed)
           case NandWrite =>
             && completed == nextAvail == EndTime(old(ch.Ch()), now, start, c.xferSize) + lat.wr
             && ch.Ch() == After(old(ch.Ch()), now, start, c.xferSize) && pcie.Ch() == old(pcie.Ch())
           case NandErase =>
             completed == nextAvail == start + lat.er && ch.Ch() == old(ch.Ch()) && pcie.Ch() == old(pcie.Ch())
           case NandNop =>
             completed == nextAvail == start && ch.Ch() == old(ch.Ch()) && pcie.Ch() == old(pcie.Ch())
    {
      hide ChanOk, After, EndTime, RingOk, Leaves, ReadOutAs;
      var cmdStime := if c.stime == 0 then now else c.stime;
      ghost var start := Max(nextAvail, cmdStime);
      t := Transfer([], [], [], []);
      match c.op {
        case NandRead =>
          var nandStime := Max(nextAvail, cmdStime);
          var nandEtime := nandStime + if c.xferSize == 4096 then lat.rd4kb[c.cell] else lat.rd[c.cell];
          var chnlEtime;
          chnlEtime, completed, t := ReadOut(ch, pcie, lat.maxChXfer, nandEtime, c.xferSize, c.interleavePciDma, now);
          nextAvail := chnlEtime;
        case NandWrite =>
          var chnlStime := Max(nextAvail, cmdStime);
          var chnlEtime := Send(ch, now, chnlStime, c.xferSize);
          var nandEtime := chnlEtime + lat.wr;
          nextAvail := nandEtime;
          completed := nandEtime;
        case NandErase =>
          var nandStime := Max(nextAvail, cmdStime);
          nextAvail := nandStime + lat.er;
          completed := nextAvail;
        case NandNop =>
          nextAvail := Max(nextAvail, cmdStime);
          completed := nextAvail;
      }
      Extend(log, old(nextAvail), Busy(start, nextAvail));
      log := log + [Busy(start, nextAvail)];
    }

    /** The transfer loop of a read. */
    method ReadOut(ch: Channel, pcie: Channel, maxXfer: nat, stime: nat, size: nat, interleave: bool, now: nat)
      returns (etime: nat, completed: nat, ghost t: Transfer)
      requires ch != pcie && ch.avail != pcie.avail && Ready(ch, now) && Ready(pcie, now)
      requires maxXfer > 0 && size > 0
      modifies ch, ch.avail, pcie, pcie.avail
      ensures Ready(ch, now) && Ready(pcie, now) && etime >= stime
      ensures ReadOutAs(t, old(ch.Ch()), old(pcie.Ch()), maxXfer, stime, size, interleave, now)
      ensures Leaves(t, ch.Ch(), pcie.Ch(), etime, completed)
    {
      hide ChanOk, After, EndTime, RingOk, PieceSize, LeftBefore, DivRoundUp;
      var remaining := size;
      var chnlStime := stime;
      etime, completed := stime, stime;
      ghost var k := 0;
      t := Transfer([ch.Ch()], [pcie.Ch()], [stime], []);
      PieceStep(size, maxXfer, 0);
      while remaining > 0
        invariant Ready(ch, now) && Ready(pcie, now) && chnlStime == etime >= stime
        invariant remaining == LeftBefore(size, maxXfer, k)
        invariant SentUpTo(t, k, old(ch.Ch()), old(pcie.Ch()), maxXfer, stime, size, interleave, now)
        invariant ch.Ch() == t.ch[k] && pcie.Ch() == t.pcie[k] && etime == t.times[k]
        invariant k > 0 ==> completed == t.done[k - 1]
        decreases remaining
      {
        PieceStep(size, maxXfer, k);
        ghost var before := t;
        var xferSize := Min(remaining, maxXfer);
        etime := Send(ch, now, chnlStime, xferSize);
        if interleave {
          completed := Send(pcie, now, etime, xferSize);
        } else {
          completed := etime;
        }
        remaining := remaining - xferSize;
        chnlStime := etime;
        t := Then(before, ch.Ch(), pcie.Ch(), etime, completed);
        SentNext(before, k, old(ch.Ch()), old(pcie.Ch()), maxXfer, stime, size, interleave, now, t);
        k := k + 1;
      }
      PieceStep(size, maxXfer, k);
    }

    /** One channel request; afterwards the channel is at the clock time and stays ready. */
    method Send(ch: Channel, now: nat, requestTime: nat, length: nat) returns (t: nat)
      requires Ready(ch, now)
      modifies ch, ch.avail
      ensures Ready(ch, now) && ch.Ch() == After(old(ch.Ch()), now, requestTime, length)
      ensures t == EndTime(old(ch.Ch()), now, requestTime, length)
    {
      hide RingOk, ChanOk, After, EndTime;
      AfterOk(ch.Ch(), now, requestTime, length);
      t := ch.Request(now, requestTime, length);
    }
  }

  /** `ssd_next_idle_time`: the first moment from `now` on at which no LUN is busy any more. */
  method NextIdleTime(luns: seq<Lun>, now: nat) returns (latest: nat)
    requires forall i :: 0 <= i < |luns| ==> luns[i].Valid()
    ensures latest >= now
    ensures forall i, k :: 0 <= i < |luns| && 0 <= k < |luns[i].log| ==> luns[i].log[k].end <= latest
    ensures latest == now || exists i, k :: 0 <= i < |luns| && 0 <= k < |luns[i].log| && luns[i].log[k].end == latest
  {
    latest := now;
    for i := 0 to |luns|
      invariant latest >= now
      invariant forall j :: 0 <= j < i ==> luns[j].nextAvail <= latest
      invariant latest == now ||
                exists j, k :: 0 <= j < i && 0 <= k < |luns[j].log| && luns[j].log[k].end == latest
    {
      assert luns[i].nextAvail > latest ==> luns[i].log[|luns[i].log| - 1].end == luns[i].nextAvail;
      latest := Max(latest, luns[i].nextAvail);
    }
  }
}
