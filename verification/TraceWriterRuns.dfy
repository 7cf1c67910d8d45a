/** The trace writer under every interleaving of its recording threads. */
module TraceWriterRuns {
  import opened TraceWriter

  /** `waiting` are the threads that have appended, were told to flush, and have not flushed yet.
      `log` is everything recorded since the last reset, in lock order; `rotations` are the stamps of
      the archives made since then; `truncated` says that the last reset could open the file. */
  datatype System = System(
    w: Writer, waiting: set<nat>, log: seq<Line>, rotations: seq<int>, truncated: bool)

  /** One critical section.  `ThreadFlush` is a recording thread's inline flush, `TimerFlush` the
      one-shot timer or an outside caller. */
  datatype Step =
    | Append(thread: nat, line: Line)
    | ThreadFlush(thread: nat, stamp: int, writeOk: bool)
    | TimerFlush(stamp: int, writeOk: bool)
    | Reset(openOk: bool)
    | Close(writeOk: bool)

  function Without(s: seq<int>, x: int): seq<int> {
    if s == [] then [] else if s[0] == x then Without(s[1..], x) else [s[0]] + Without(s[1..], x)
  }

  function AfterFlush(s: System, stamp: int, writeOk: bool): System {
    s.(w := Flushed(s.w, stamp, writeOk),
       rotations := if Rotates(Written(s.w, writeOk)) then Without(s.rotations, stamp) + [stamp] else s.rotations)
  }

  /** A step whose thread is not at that point of `record` does nothing. */
  function Next(s: System, step: Step): System {
    match step
    case Append(thread, line) =>
      if thread in s.waiting then s
      else
        var w := Appended(s.w, line);
        s.(w := w, log := s.log + [line], waiting := if NeedsFlush(w) then s.waiting + {thread} else s.waiting)
    case ThreadFlush(thread, stamp, writeOk) =>
      if thread !in s.waiting then s
      else AfterFlush(s.(waiting := s.waiting - {thread}), stamp, writeOk)
    case TimerFlush(stamp, writeOk) => AfterFlush(s, stamp, writeOk)
    case Reset(openOk) => s.(w := WasReset(s.w, openOk), log := [], rotations := [], truncated := openOk)
    case Close(writeOk) => s.(w := Closed(s.w, writeOk))
  }

  function Run(s: System, steps: seq<Step>): System
    decreases |steps|
  {
    if steps == [] then s else Run(Next(s, steps[0]), steps[1..])
  }

  /** A freshly constructed writer. */
  ghost predicate IsStart(s: System) {
    exists stale: Writer, openOk: bool ::
      s == System(WasReset(stale, openOk), {}, [], [], openOk)
  }

  function Archived(archives: map<int, seq<Line>>, rotations: seq<int>): seq<Line>
    requires forall r :: r in rotations ==> r in archives
  {
    if rotations == [] then []
    else
      var first := rotations[0];
      assert first in rotations && first in archives;
      archives[first] + Archived(archives, rotations[1..])
  }

  ghost predicate RotationsOk(s: System) {
    && (forall r :: r in s.rotations ==> r in s.w.archives && s.w.archives[r] != [])
    && (forall i, j :: 0 <= i < j < |s.rotations| ==> s.rotations[i] != s.rotations[j])
  }

  /** What the disk holds of the records since the last reset. */
  function OnDisk(s: System): seq<Line>
    requires forall r :: r in s.rotations ==> r in s.w.archives
  {
    Archived(s.w.archives, s.rotations) + if s.truncated then s.w.current else []
  }

  /** Archives, current file and buffer together are everything recorded since the last reset. */
  ghost predicate NothingLost(s: System) {
    RotationsOk(s) && OnDisk(s) + s.w.buf == s.log
  }

  // ----- Archives -----

  lemma {:induction false} WithoutMeaning(s: seq<int>, x: int)
    ensures forall y :: y in Without(s, x) <==> y in s && y != x
    ensures x !in s ==> Without(s, x) == s
    ensures (forall i, j :: 0 <= i < j < |s| ==> s[i] != s[j])
        ==> forall i, j :: 0 <= i < j < |Without(s, x)| ==> Without(s, x)[i] != Without(s, x)[j]
  {
    if s != [] {
      WithoutMeaning(s[1..], x);
      if s[0] != x && forall i, j :: 0 <= i < j < |s| ==> s[i] != s[j] {
        assert s[0] !in s[1..];
        assert s[0] !in Without(s[1..], x);
      }
    }
  }

  lemma {:induction false} ArchivedFrame(a: map<int, seq<Line>>, b: map<int, seq<Line>>, rotations: seq<int>)
    requires forall r :: r in rotations ==> r in a && r in b && a[r] == b[r]
    ensures Archived(a, rotations) == Archived(b, rotations)
  {
    if rotations != [] {
      var first := rotations[0];
      assert first in rotations && a[first] == b[first];
      ArchivedFrame(a, b, rotations[1..]);
    }
  }

  lemma {:induction false} ArchivedSnoc(a: map<int, seq<Line>>, rotations: seq<int>, r: int)
    requires r in a && forall x :: x in rotations ==> x in a
    ensures Archived(a, rotations + [r]) == Archived(a, rotations) + a[r]
  {
    if rotations == [] {
      assert rotations + [r] == [r];
      assert Archived(a, [r]) == a[r] + Archived(a, []);
    } else {
      assert (rotations + [r])[1..] == rotations[1..] + [r];
      ArchivedSnoc(a, rotations[1..], r);
    }
  }

  lemma {:induction false} DroppingAnArchiveShrinks(a: map<int, seq<Line>>, rotations: seq<int>, x: int)
    requires forall r :: r in rotations ==> r in a && a[r] != []
    requires forall r :: r in Without(rotations, x) ==> r in a
    ensures |Archived(a, Without(rotations, x))| <= |Archived(a, rotations)|
    ensures x in rotations ==> |Archived(a, Without(rotations, x))| < |Archived(a, rotations)|
  {
    if rotations != [] {
      WithoutMeaning(rotations[1..], x);
      DroppingAnArchiveShrinks(a, rotations[1..], x);
      if rotations[0] != x {
        assert ([rotations[0]] + Without(rotations[1..], x))[1..] == Without(rotations[1..], x);
      } else {
        assert a[x] != [];
      }
    }
  }

  /** What a rotation does to the disk: same stamp, and the earlier archive is gone. */
  lemma RotationOnDisk(s: System, stamp: int)
    requires RotationsOk(s) && s.truncated && Rotates(s.w)
    ensures var s' := s.(w := Rotated(s.w, stamp), rotations := Without(s.rotations, stamp) + [stamp]);
            && RotationsOk(s')
            && (stamp !in s.rotations ==> OnDisk(s') == OnDisk(s))
            && (stamp in s.rotations ==> |OnDisk(s')| < |OnDisk(s)|)
  {
    var s' := s.(w := Rotated(s.w, stamp), rotations := Without(s.rotations, stamp) + [stamp]);
    var kept := Without(s.rotations, stamp);
    WithoutMeaning(s.rotations, stamp);
    assert s.w.current != [];
    DroppingAnArchiveShrinks(s.w.archives, s.rotations, stamp);
    ArchivedFrame(s.w.archives, s'.w.archives, kept);
    ArchivedSnoc(s'.w.archives, kept, stamp);
    assert OnDisk(s') == Archived(s'.w.archives, kept) + s.w.current + [];
  }

  // ----- One flush -----

  /** A flush of an open writer loses nothing exactly when its write succeeds (or there is nothing to
      write) and, if it rotates, no archive since the reset carries the same second. */
  lemma FlushLosesNothingIff(s: System, stamp: int, writeOk: bool)
    requires NothingLost(s) && s.w.open && s.truncated
    ensures NothingLost(AfterFlush(s, stamp, writeOk)) <==>
              && (writeOk || s.w.buf == [])
              && (Rotates(Written(s.w, writeOk)) ==> stamp !in s.rotations)
    ensures RotationsOk(AfterFlush(s, stamp, writeOk))
  {
    var written := s.(w := Written(s.w, writeOk));
    assert Archived(written.w.archives, written.rotations) == Archived(s.w.archives, s.rotations);
    assert OnDisk(written) == if writeOk then OnDisk(s) + s.w.buf else OnDisk(s);
    if Rotates(written.w) {
      RotationOnDisk(written, stamp);
    }
  }

  // ----- Whole runs -----

  /** `n` recording threads, no write errors in a flush, and rotations in different seconds. */
  ghost predicate Benign(s: System, steps: seq<Step>, n: nat)
    decreases |steps|
  {
    steps == [] || (StepBenign(s, steps[0], n) && Benign(Next(s, steps[0]), steps[1..], n))
  }

  ghost predicate StepBenign(s: System, step: Step, n: nat) {
    match step
    case Append(thread, _) => thread < n
    case ThreadFlush(thread, stamp, writeOk) => writeOk && (Rotates(Written(s.w, true)) ==> stamp !in s.rotations)
    case TimerFlush(stamp, writeOk) => writeOk && (Rotates(Written(s.w, true)) ==> stamp !in s.rotations)
    case Reset(_) => true
    case Close(_) => true
  }

  function Below(n: nat): (b: set<nat>)
    ensures forall t: nat :: t in b <==> t < n
  {
    if n == 0 then {} else Below(n - 1) + {n - 1}
  }

  lemma {:induction false} BelowSize(n: nat)
    ensures |Below(n)| == n
  {
    if n > 0 {
      BelowSize(n - 1);
    }
  }

  /** While the file is open the buffer is at most 24 plus the threads on their way to a flush. */
  ghost predicate Inv(s: System, n: nat) {
    && s.waiting <= Below(n)
    && RotationsOk(s)
    && (!s.truncated ==> s.rotations == [])
    && (s.w.open ==> s.truncated && NothingLost(s) && |s.w.buf| <= INLINE_FLUSH_EVERY - 1 + |s.waiting|)
    && (!s.w.open ==> OnDisk(s) <= s.log && s.w.buf == Last(MAX_BUF, s.log[|OnDisk(s)|..]))
  }

  /** The largest number of recording threads for which the 2000-entry buffer cannot overflow. */
  const MAX_THREADS := MAX_BUF - INLINE_FLUSH_EVERY + 1

  lemma AppendKeepsInv(s: System, thread: nat, line: Line, n: nat)
    requires Inv(s, n) && thread < n <= MAX_THREADS
    ensures Inv(Next(s, Append(thread, line)), n)
  {
    if thread !in s.waiting {
      var s' := Next(s, Append(thread, line));
      assert s.waiting <= Below(n) - {thread};
      BelowSize(n);
      SubsetSize(s.waiting, Below(n) - {thread});
      assert OnDisk(s') == OnDisk(s);
      if s.w.open {
        assert s.w.buf + [line] == s'.w.buf;
        assert OnDisk(s) + (s.w.buf + [line]) == s.log + [line];
      } else {
        LastAppend(s.log[|OnDisk(s)|..], line);
        assert s'.log[|OnDisk(s)|..] == s.log[|OnDisk(s)|..] + [line];
      }
    }
  }

  lemma SubsetSize(a: set<nat>, b: set<nat>)
    requires a <= b
    ensures |a| <= |b|
  {
    assert b == a + (b - a);
  }

  lemma LastAppend(s: seq<Line>, line: Line)
    ensures Last(MAX_BUF, Last(MAX_BUF, s) + [line]) == Last(MAX_BUF, s + [line])
  {
  }

  lemma FlushKeepsInv(s: System, stamp: int, n: nat)
    requires Inv(s, n)
    requires Rotates(Written(s.w, true)) ==> stamp !in s.rotations
    ensures Inv(AfterFlush(s, stamp, true), n)
    ensures s.w.open ==> AfterFlush(s, stamp, true).w.buf == []
  {
    if s.w.open {
      FlushLosesNothingIff(s, stamp, true);
    }
  }

  lemma CloseKeepsInv(s: System, writeOk: bool, n: nat)
    requires Inv(s, n) && n <= MAX_THREADS
    ensures Inv(Next(s, Close(writeOk)), n)
  {
    BelowSize(n);
    SubsetSize(s.waiting, Below(n));
    if s.w.open {
      assert OnDisk(Next(s, Close(writeOk))) == if writeOk then s.log else OnDisk(s);
      assert s.log[|OnDisk(s)|..] == s.w.buf;
    }
  }

  lemma StepKeepsInv(s: System, step: Step, n: nat)
    requires Inv(s, n) && StepBenign(s, step, n) && n <= MAX_THREADS
    ensures Inv(Next(s, step), n)
  {
    match step
    case Append(thread, line) => AppendKeepsInv(s, thread, line, n);
    case ThreadFlush(thread, stamp, _) =>
      if thread in s.waiting {
        var s0 := s.(waiting := s.waiting - {thread});
        if s.w.open {
          FlushLosesNothingIff(s0, stamp, true);
        } else {
          FlushKeepsInv(s0, stamp, n);
        }
      }
    case TimerFlush(stamp, _) => FlushKeepsInv(s, stamp, n);
    case Reset(_) =>
    case Close(writeOk) => CloseKeepsInv(s, writeOk, n);
  }

  lemma {:induction false} RunKeepsInv(s: System, steps: seq<Step>, n: nat)
    requires Inv(s, n) && Benign(s, steps, n) && n <= MAX_THREADS
    ensures Inv(Run(s, steps), n)
    decreases |steps|
  {
    if steps != [] {
      StepKeepsInv(s, steps[0], n);
      RunKeepsInv(Next(s, steps[0]), steps[1..], n);
    }
  }

  /** No record is lost: under every interleaving of at most 1976 recording threads, while the file is
      open, archives ++ current file ++ buffer is everything recorded since the last reset, in lock
      order, and the buffer never fills.  If the file could not be opened, the buffer is exactly the
      last 2000 records.  After `close`, even one whose write failed, the disk still holds a prefix of the
      log, and the buffer the latest records of the rest. */
  lemma NoRecordIsLost(s: System, steps: seq<Step>, n: nat)
    requires IsStart(s) && Benign(s, steps, n) && n <= MAX_THREADS
    ensures RotationsOk(Run(s, steps))
    ensures var e := Run(s, steps);
            && (e.w.open ==> OnDisk(e) + e.w.buf == e.log
                             && |e.w.buf| <= INLINE_FLUSH_EVERY - 1 + |e.waiting| <= MAX_BUF)
            && (!e.truncated ==> e.w.buf == Last(MAX_BUF, e.log))
            && OnDisk(e) <= e.log
            && e.w.buf == Last(MAX_BUF, e.log[|OnDisk(e)|..])
  {
    assert Inv(s, n);
    RunKeepsInv(s, steps, n);
    var e := Run(s, steps);
    BelowSize(n);
    SubsetSize(e.waiting, Below(n));
    if e.w.open {
      assert e.log[|OnDisk(e)|..] == e.w.buf;
    }
    if !e.truncated {
      assert OnDisk(e) == [];
      assert e.log[0..] == e.log;
    }
  }

  // ----- The thread bound is exact -----

  /** 24 appends by thread 0, then one append by every thread in turn, no flush getting in between. */
  function Burst(k: nat): seq<Step> {
    if k == 0 then [] else Burst(k - 1) + [Append(if k <= 24 then 0 else k - 25, "x")]
  }

  lemma {:induction false} RunSnoc(s: System, steps: seq<Step>, last: Step)
    ensures Run(s, steps + [last]) == Next(Run(s, steps), last)
    decreases |steps|
  {
    if steps == [] {
      assert steps + [last] == [last];
    } else {
      assert (steps + [last])[1..] == steps[1..] + [last];
      RunSnoc(Next(s, steps[0]), steps[1..], last);
    }
  }

  lemma {:induction false} BenignSnoc(s: System, steps: seq<Step>, last: Step, n: nat)
    requires Benign(s, steps, n) && StepBenign(Run(s, steps), last, n)
    ensures Benign(s, steps + [last], n)
    decreases |steps|
  {
    if steps == [] {
      assert steps + [last] == [last];
    } else {
      assert (steps + [last])[1..] == steps[1..] + [last];
      BenignSnoc(Next(s, steps[0]), steps[1..], last, n);
    }
  }

  lemma {:induction false} BurstState(s: System, k: nat, n: nat)
    requires s.w.open && s.truncated && s.w.buf == s.w.current == s.log == [] && s.rotations == [] && s.waiting == {}
    requires k <= MAX_BUF + 1 && n > MAX_THREADS
    ensures var e := Run(s, Burst(k));
            && Benign(s, Burst(k), n)
            && e.w.open && e.truncated && e.w.current == [] && e.rotations == []
            && |e.log| == k && |e.w.buf| == (if k <= MAX_BUF then k else MAX_BUF)
            && e.waiting == (if k <= 24 then {} else Below(k - 24))
  {
    if k > 0 {
      BurstState(s, k - 1, n);
      var last := Append(if k <= 24 then 0 else k - 25, "x");
      RunSnoc(s, Burst(k - 1), last);
      BenignSnoc(s, Burst(k - 1), last, n);
      if k > 24 {
        assert Below(k - 24) == (if k == 25 then {} else Below(k - 25)) + {k - 25};
      }
    }
  }

  /** With one thread more the buffer can drop a record although every write succeeds. */
  lemma OneThreadMoreCanLose(s: System)
    requires s.w.open && s.truncated && s.w.buf == s.w.current == s.log == [] && s.rotations == [] && s.waiting == {}
    ensures exists steps :: Benign(s, steps, MAX_THREADS + 1)
                         && Run(s, steps).w.open && !NothingLost(Run(s, steps))
  {
    BurstState(s, MAX_BUF + 1, MAX_THREADS + 1);
    var e := Run(s, Burst(MAX_BUF + 1));
    assert OnDisk(e) == [];
    assert |OnDisk(e) + e.w.buf| < |e.log|;
  }

  // ----- File sizes -----

  /** The open file never exceeds the cap, and whatever was archived since the reset does. */
  ghost predicate SizesOk(s: System) {
    && (s.w.open ==> s.truncated && |Text(s.w.current)| <= s.w.cap)
    && forall r :: r in s.rotations ==> r in s.w.archives && |Text(s.w.archives[r])| > s.w.cap
  }

  lemma StepKeepsSizes(s: System, step: Step)
    requires SizesOk(s)
    ensures SizesOk(Next(s, step)) && Next(s, step).w.cap == s.w.cap
  {
    if step.ThreadFlush? || step.TimerFlush? {
      FlushKeepsSizes(s, step.stamp, step.writeOk);
    }
  }

  lemma FlushKeepsSizes(s: System, stamp: int, writeOk: bool)
    requires SizesOk(s)
    ensures SizesOk(AfterFlush(s, stamp, writeOk))
  {
    if s.w.open {
      FlushBoundsTheFile(s.w, stamp, writeOk);
      WithoutMeaning(s.rotations, stamp);
      BytesAreText(Written(s.w, writeOk).current);
    }
  }

  lemma {:induction false} RunKeepsSizes(s: System, steps: seq<Step>)
    requires SizesOk(s)
    ensures SizesOk(Run(s, steps)) && Run(s, steps).w.cap == s.w.cap
    decreases |steps|
  {
    if steps != [] {
      StepKeepsSizes(s, steps[0]);
      RunKeepsSizes(Next(s, steps[0]), steps[1..]);
    }
  }

  /** Under every interleaving, and whether or not writes succeed: an open file holds at most `cap` bytes, and
      only files of more than `cap` bytes have been archived since the last reset. */
  lemma FileStaysBounded(s: System, steps: seq<Step>)
    requires IsStart(s)
    ensures var e := Run(s, steps);
            && (e.w.open ==> |Text(e.w.current)| <= s.w.cap)
            && forall r :: r in e.rotations ==> r in e.w.archives && |Text(e.w.archives[r])| > s.w.cap
  {
    RunKeepsSizes(s, steps);
  }

  /** Only `close` closes the file: without it the writer is open exactly when the last reset could truncate. */
  lemma {:induction false} OnlyCloseCloses(s: System, steps: seq<Step>)
    requires s.w.open == s.truncated && forall k :: 0 <= k < |steps| ==> !steps[k].Close?
    ensures Run(s, steps).w.open == Run(s, steps).truncated
    decreases |steps|
  {
    if steps != [] {
      assert forall k :: 0 <= k < |steps[1..]| ==> steps[1..][k] == steps[k + 1];
      OnlyCloseCloses(Next(s, steps[0]), steps[1..]);
    }
  }
}
