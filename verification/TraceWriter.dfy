/** The trace writer: a bounded buffer in front of a file that is rotated into archives.

    A file is the sequence of its lines.  The class holds the state the lock protects; its methods are
    the critical sections, and each is tied to a function on `Writer` values.  Any number of recording
    threads interleave at the critical sections: see `TraceWriterRuns`.
 */
module TraceWriter {

  type Line = string

  const MAX_BUF := 2000
  const INLINE_FLUSH_EVERY := 25

  /** `archives` maps the rotation time stamp, in whole seconds, to the archived lines. */
  datatype Writer = Writer(
    buf: seq<Line>, open: bool, current: seq<Line>, archives: map<int, seq<Line>>, cap: nat)

  /** A full `deque(maxlen=n)` drops from the front. */
  function Last(n: nat, s: seq<Line>): (r: seq<Line>)
    ensures |s| <= n ==> r == s
  {
    if |s| <= n then s else s[|s| - n..]
  }

  /** Size of a file: one byte per character and one newline per line. */
  function Bytes(lines: seq<Line>): nat {
    if lines == [] then 0 else |lines[0]| + 1 + Bytes(lines[1..])
  }

  function Appended(w: Writer, line: Line): Writer {
    w.(buf := Last(MAX_BUF, w.buf + [line]))
  }

  predicate NeedsFlush(w: Writer) {
    |w.buf| >= INLINE_FLUSH_EVERY
  }

  /** The buffer is emptied before the write: a failed write loses its lines. */
  function Written(w: Writer, writeOk: bool): Writer {
    if w.open && w.buf != [] then w.(buf := [], current := if writeOk then w.current + w.buf else w.current) else w
  }

  predicate Rotates(w: Writer) {
    w.open && Bytes(w.current) > w.cap
  }

  /** An archive of the same second is overwritten. */
  function Rotated(w: Writer, stamp: int): Writer {
    if Rotates(w) then w.(archives := w.archives[stamp := w.current], current := []) else w
  }

  function Flushed(w: Writer, stamp: int, writeOk: bool): Writer {
    Rotated(Written(w, writeOk), stamp)
  }

  function WasReset(w: Writer, openOk: bool): Writer {
    if openOk then w.(buf := [], open := true, current := []) else w.(buf := [], open := false)
  }

  /** Here the buffer is emptied after the write: a failed write keeps its lines in the buffer. */
  function Closed(w: Writer, writeOk: bool): Writer {
    if !w.open then w
    else if writeOk then w.(buf := [], current := w.current + w.buf, open := false)
    else w.(open := false)
  }

  /** The text of a file. */
  function Text(lines: seq<Line>): string {
    if lines == [] then "" else lines[0] + "\n" + Text(lines[1..])
  }

  lemma {:induction false} BytesAreText(lines: seq<Line>)
    ensures Bytes(lines) == |Text(lines)|
  {
    if lines != [] {
      BytesAreText(lines[1..]);
    }
  }

  /** A flush of an open writer leaves a file of at most `cap` bytes, and archives exactly those files that the
      write has made larger. */
  lemma FlushBoundsTheFile(w: Writer, stamp: int, writeOk: bool)
    requires w.open
    ensures var e, file := Flushed(w, stamp, writeOk), w.current + if writeOk then w.buf else [];
            && |Text(e.current)| <= w.cap
            && e.buf == [] && e.open && e.cap == w.cap
            && (|Text(file)| <= w.cap ==> e.current == file && e.archives == w.archives)
            && (|Text(file)| > w.cap ==> e.current == [] && e.archives == w.archives[stamp := file])
  {
    var file := w.current + if writeOk then w.buf else [];
    assert Written(w, writeOk).current == file;
    BytesAreText(file);
    BytesAreText([]);
  }

  class DebugTraceWriter {
    var buf: seq<Line>
    var open: bool
    var current: seq<Line>
    var archives: map<int, seq<Line>>
    const cap: nat

    function State(): Writer
      reads this
    {
      Writer(buf, open, current, archives, cap)
    }

    /** `stale` and `archives` are what an earlier process left on the disk. */
    constructor (cap: nat, stale: seq<Line>, archives: map<int, seq<Line>>, openOk: bool)
      ensures State() == WasReset(Writer([], false, stale, archives, cap), openOk)
    {
      this.cap := cap;
      this.archives := archives;
      buf := [];
      current := stale;
      open := false;
      new;
      Reset(openOk);
    }

    method Reset(openOk: bool)
      modifies this
      ensures State() == WasReset(old(State()), openOk)
    {
      buf := [];
      if openOk {
        current := [];
        open := true;
      } else {
        open := false;
      }
    }

    /** First critical section of `record`. */
    method Append(line: Line) returns (needFlush: bool)
      modifies `buf
      ensures State() == Appended(old(State()), line)
      ensures needFlush == NeedsFlush(State())
    {
      buf := buf + [line];
      if |buf| > MAX_BUF {
        buf := buf[|buf| - MAX_BUF..];
      }
      needFlush := |buf| >= INLINE_FLUSH_EVERY;
    }

    method Flush(stamp: int, writeOk: bool)
      modifies this
      ensures State() == Flushed(old(State()), stamp, writeOk)
    {
      if open && buf != [] {
        var lines := buf;
        buf := [];
        if writeOk {
          current := current + lines;
        }
      }
      if open {
        var size := Bytes(current);
        if size > cap {
          archives := archives[stamp := current];
          current := [];
        }
      }
    }

    /** `record` without interleaving: the inline flush follows its append. */
    method Record(line: Line, stamp: int, writeOk: bool)
      modifies this
      ensures State() == var w := Appended(old(State()), line);
                         if NeedsFlush(w) then Flushed(w, stamp, writeOk) else w
      ensures open ==> |buf| < INLINE_FLUSH_EVERY
    {
      var needFlush := Append(line);
      if needFlush {
        Flush(stamp, writeOk);
      }
    }

    method Close(writeOk: bool)
      modifies this
      ensures State() == Closed(old(State()), writeOk)
    {
      if open {
        if buf != [] && writeOk {
          current := current + buf;
          buf := [];
        }
        open := false;
      }
    }
  }
}
