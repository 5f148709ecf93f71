// Splitting a log byte stream into lines, whatever the sizes of the chunks it
// arrives in, with a cap on the pending line.
module LineSplitter {

  newtype byte = x: int | 0 <= x < 256

  const LF: byte := 10
  const CR: byte := 13
  // An unfinished line longer than this is flushed as a line of its own.
  const CAP := 0x10_0000

  // The position of the first newline, or the length.
  function FirstLF(s: seq<byte>): (i: nat)
    ensures i <= |s| && LF !in s[..i] && (i < |s| ==> s[i] == LF)
    ensures LF !in s <==> i == |s|
  {
    if s == [] || s[0] == LF then 0 else 1 + FirstLF(s[1..])
  }

  function TrimCR(line: seq<byte>): seq<byte> {
    if line != [] && line[|line| - 1] == CR then line[..|line| - 1] else line
  }

  // A run ended by a newline: a line, unless it is empty.
  function Ended(run: seq<byte>): seq<seq<byte>> {
    if run == [] then [] else [TrimCR(run)]
  }

  // A run flushed without a newline: a line, unless it is empty once trimmed.
  function Flushed(run: seq<byte>): seq<seq<byte>> {
    if TrimCR(run) == [] then [] else [TrimCR(run)]
  }

  // The lines of the runs that a newline ends, and the open run behind them.
  function Drain(s: seq<byte>): (r: (seq<seq<byte>>, seq<byte>))
    ensures LF !in r.1 && |r.1| <= |s|
    decreases |s|
  {
    var i := FirstLF(s);
    if i == |s| then ([], s)
    else
      var (lines, open) := Drain(s[i + 1..]);
      (Ended(s[..i]) + lines, open)
  }

  lemma DrainUnfold(s: seq<byte>)
    ensures LF !in s ==> Drain(s) == ([], s)
    ensures LF in s ==>
      var i := FirstLF(s);
      Drain(s) == (Ended(s[..i]) + Drain(s[i + 1..]).0, Drain(s[i + 1..]).1)
  {}

  // One line off the front.
  lemma DrainStep(s: seq<byte>, emitted: seq<seq<byte>>)
    requires LF in s
    ensures
      var i := FirstLF(s);
      && Drain(s).1 == Drain(s[i + 1..]).1
      && emitted + Drain(s).0 == emitted + Ended(s[..i]) + Drain(s[i + 1..]).0
  {
    hide Drain, Ended, FirstLF;
    DrainUnfold(s);
    assert emitted + (Ended(s[..FirstLF(s)]) + Drain(s[FirstLF(s) + 1..]).0)
        == emitted + Ended(s[..FirstLF(s)]) + Drain(s[FirstLF(s) + 1..]).0;
  }

  // The lines of a whole stream: what a writer that gets it in one piece emits.
  function Lines(s: seq<byte>): seq<seq<byte>> {
    Drain(s).0 + Flushed(Drain(s).1)
  }

  // A line as a log holds it: not empty, and without its line end.
  predicate Plain(line: seq<byte>) {
    line != [] && 10 !in line && line[|line| - 1] != 13
  }

  // The lines, each with a line end of either kind.
  function Terminated(lines: seq<seq<byte>>, crs: seq<bool>): seq<byte>
    requires |crs| == |lines|
  {
    if lines == [] then []
    else lines[0] + (if crs[0] then [13, 10] else [10]) + Terminated(lines[1..], crs[1..])
  }

  // A run that a newline ends is a line unless it is empty: without its carriage
  // return, and then possibly empty.
  lemma EndedExactly(run: seq<byte>)
    ensures Ended([]) == [] && Ended(run + [13]) == [run]
    ensures run != [] && run[|run| - 1] != 13 ==> Ended(run) == [run]
  {}

  // A run that is flushed is one unless nothing is left of it.
  lemma FlushedExactly(run: seq<byte>)
    ensures Flushed([]) == [] && Flushed(run + [13]) == if run == [] then [] else [run]
    ensures run != [] && run[|run| - 1] != 13 ==> Flushed(run) == [run]
  {}

  lemma EndedPlain(line: seq<byte>)
    requires Plain(line)
    ensures Ended(line) == [line] && Ended(line + [13]) == [line] && Flushed(line) == [line]
    ensures LF !in line && LF !in line + [13]
  {}

  lemma {:induction false} FirstOf(run: seq<byte>, rest: seq<byte>)
    requires LF !in run
    ensures FirstLF(run + [LF] + rest) == |run|
  {
    var s := run + [LF] + rest;
    if run != [] {
      FirstOf(run[1..], rest);
      assert s[0] == run[0] && run[0] in run;
      assert s[1..] == run[1..] + [LF] + rest;
    }
  }

  // What a run and a newline put in front of a stream add to its lines.
  lemma LinesCons(run: seq<byte>, rest: seq<byte>)
    requires LF !in run
    ensures Lines(run + [LF] + rest) == Ended(run) + Lines(rest)
  {
    hide FirstLF, Ended, Flushed, Drain;
    var s := run + [LF] + rest;
    FirstOf(run, rest);
    assert s[|run|] == LF;
    DrainUnfold(s);
    assert s[..|run|] == run && s[|run| + 1..] == rest;
    var (lines, open) := Drain(rest);
    assert (Ended(run) + lines) + Flushed(open) == Ended(run) + (lines + Flushed(open));
  }

  // Splitting a stream gives back the lines it was written from, whatever their line
  // ends, and the last one also without a line end.
  lemma {:induction false} LinesRoundTrip(lines: seq<seq<byte>>, crs: seq<bool>, last: seq<byte>)
    requires |crs| == |lines| && (forall i :: 0 <= i < |lines| ==> Plain(lines[i])) && (last == [] || Plain(last))
    ensures Lines(Terminated(lines, crs) + last) == lines + if last == [] then [] else [last]
  {
    hide Lines, Ended, Flushed, Plain;
    if lines == [] {
      assert [] + last == last;
      LastLine(last);
    } else {
      var line, rest := lines[0], Terminated(lines[1..], crs[1..]) + last;
      LinesRoundTrip(lines[1..], crs[1..], last);
      var run := if crs[0] then line + [13] else line;
      EndedPlain(line);
      LinesCons(run, rest);
      assert Terminated(lines, crs) + last == run + [LF] + rest;
      assert lines == [line] + lines[1..];
    }
  }

  lemma LastLine(last: seq<byte>)
    requires last == [] || Plain(last)
    ensures Lines(last) == if last == [] then [] else [last]
  {
    DrainUnfold(last);
    if last != [] {
      EndedPlain(last);
    }
  }

  // ------------------------------------------------------------------ the writer

  function Written(buffer: seq<byte>, emitted: seq<seq<byte>>, p: seq<byte>): (seq<byte>, seq<seq<byte>>) {
    var (lines, open) := Drain(buffer + p);
    if |open| > CAP then ([], emitted + lines + Flushed(open)) else (open, emitted + lines)
  }

  class LineWriter {
    var buffer: seq<byte>
    var emitted: seq<seq<byte>>

    // Nothing pending holds a newline or is longer than the cap.
    predicate Valid()
      reads this
    {
      LF !in buffer && |buffer| <= CAP
    }

    constructor ()
      ensures Valid() && buffer == [] && emitted == []
    {
      buffer, emitted := [], [];
    }

    method Write(p: seq<byte>)
      requires Valid()
      modifies this
      ensures Valid() && (buffer, emitted) == Written(old(buffer), old(emitted), p)
      ensures |buffer| <= 1024 * 1024
      ensures |Drain(old(buffer) + p).1| <= 1024 * 1024 ==> buffer == Drain(old(buffer) + p).1
    {
      hide Drain, TrimCR, Flushed, FirstLF;
      buffer := buffer + p;
      var i := FirstLF(buffer);
      while i < |buffer|
        invariant i == FirstLF(buffer)
        invariant Drain(old(buffer) + p).1 == Drain(buffer).1
        invariant old(emitted) + Drain(old(buffer) + p).0 == emitted + Drain(buffer).0
        decreases |buffer|
      {
        DrainStep(buffer, emitted);
        var line := buffer[..i];
        buffer := buffer[i + 1..];
        assert emitted + [] == emitted;
        if line != [] {
          emitted := emitted + [TrimCR(line)];
        }
        i := FirstLF(buffer);
      }
      DrainUnfold(buffer);
      assert emitted + [] == emitted;
      if |buffer| > CAP {
        Flush();
      }
    }

    method Flush()
      modifies this
      ensures buffer == [] && emitted == old(emitted) + Flushed(old(buffer))
    {
      if buffer == [] {
        return;
      }
      var line := TrimCR(buffer);
      if line != [] {
        emitted := emitted + [line];
      }
      buffer := [];
    }
  }

  // ------------------------------------------------------------ a stream in parts

  function Concat(parts: seq<seq<byte>>): seq<byte> {
    if parts == [] then [] else Concat(parts[..|parts| - 1]) + parts[|parts| - 1]
  }

  // A fresh writer's state after the parts.
  function Fed(parts: seq<seq<byte>>): (seq<byte>, seq<seq<byte>>) {
    if parts == [] then ([], [])
    else
      var (buffer, emitted) := Fed(parts[..|parts| - 1]);
      Written(buffer, emitted, parts[|parts| - 1])
  }

  // What it has emitted once flushed.
  function Emitted(parts: seq<seq<byte>>): seq<seq<byte>> {
    Fed(parts).1 + Flushed(Fed(parts).0)
  }

  // Every way to cut the stream emits the lines of the whole.
  ghost predicate CutsAgree(s: seq<byte>) {
    forall parts :: Concat(parts) == s ==> Emitted(parts) == Lines(s)
  }

  predicate LastFits(run: seq<byte>) {
    || |run| <= CAP + 1
    || (|run| == CAP + 2 && run[CAP + 1] == CR && run[CAP] != CR)
  }

  // No run is long enough for an early flush to cut it in two; a last run may still
  // be one carriage return longer.
  predicate Fits(s: seq<byte>)
    decreases |s|
  {
    var i := FirstLF(s);
    if i == |s| then LastFits(s) else i <= CAP + 1 && Fits(s[i + 1..])
  }

  lemma {:induction false} FirstLFConcat(a: seq<byte>, b: seq<byte>)
    requires LF in a
    ensures FirstLF(a + b) == FirstLF(a)
  {
    if a[0] != LF {
      assert (a + b)[1..] == a[1..] + b;
      FirstLFConcat(a[1..], b);
    }
  }

  // Draining in two steps.
  lemma {:induction false} DrainConcat(a: seq<byte>, b: seq<byte>)
    ensures Drain(a + b) == (Drain(a).0 + Drain(Drain(a).1 + b).0, Drain(Drain(a).1 + b).1)
    decreases |a|
  {
    hide Drain, Ended, FirstLF;
    DrainUnfold(a);
    if LF in a {
      var i := FirstLF(a);
      FirstLFConcat(a, b);
      DrainUnfold(a + b);
      assert (a + b)[..i] == a[..i] && (a + b)[i + 1..] == a[i + 1..] + b;
      DrainConcat(a[i + 1..], b);
      var rest := Drain(Drain(a).1 + b).0;
      assert Ended(a[..i]) + (Drain(a[i + 1..]).0 + rest) == Ended(a[..i]) + Drain(a[i + 1..]).0 + rest;
    } else {
      assert [] + Drain(a + b).0 == Drain(a + b).0;
    }
  }

  lemma {:induction false} FitsTail(a: seq<byte>, b: seq<byte>)
    requires Fits(a + b)
    ensures Fits(Drain(a).1 + b)
    decreases |a|
  {
    hide Drain, FirstLF;
    DrainUnfold(a);
    if LF in a {
      var i := FirstLF(a);
      FirstLFConcat(a, b);
      assert (a + b)[i + 1..] == a[i + 1..] + b;
      FitsTail(a[i + 1..], b);
    }
  }

  // A writer's state agrees with the stream w written so far: the open run is
  // pending, or it was flushed early and at most a carriage return is pending.
  predicate Agrees(w: seq<byte>, buffer: seq<byte>, emitted: seq<seq<byte>>) {
    var (lines, open) := Drain(w);
    || (buffer == open && emitted == lines)
    || (|open| > CAP && emitted == lines + [TrimCR(open)] && buffer == [])
    || (|open| > CAP + 1 && emitted == lines + [TrimCR(open)] && buffer == [CR])
  }

  lemma {:induction false} FirstLFBeyond(a: seq<byte>, b: seq<byte>)
    requires LF !in a
    ensures FirstLF(a + b) == |a| + FirstLF(b)
  {
    if a == [] {
      assert a + b == b;
    } else {
      assert (a + b)[1..] == a[1..] + b;
      FirstLFBeyond(a[1..], b);
    }
  }

  // After an early flush a fitting stream goes on with a newline, ends, or ends in
  // one more carriage return.
  lemma AfterEarlyFlush(open: seq<byte>, q: seq<byte>)
    requires LF !in open && |open| > CAP && Fits(open + q)
    ensures q == [] || q[0] == LF || (q == [CR] && open[|open| - 1] != CR)
    ensures |open| > CAP + 1 ==> q == []
  {
    hide FirstLF;
    FirstLFBeyond(open, q);
    if q != [] && q[0] != LF {
      assert FirstLF(q) > 0;
      assert FirstLF(q) == |q| && open + q == (open + q)[..|open + q|];
    }
  }

  lemma Flush(buffer: seq<byte>, emitted: seq<seq<byte>>, p: seq<byte>, lines: seq<seq<byte>>, open: seq<byte>)
    requires emitted + Drain(buffer + p).0 == lines && Drain(buffer + p).1 == open
    ensures Written(buffer, emitted, p) == if |open| > CAP then ([], lines + [TrimCR(open)]) else (open, lines)
  {
    hide Drain;
  }

  // One more write, with the rest of the stream still to come.
  lemma WriteAgrees(
    w: seq<byte>, p: seq<byte>, rest: seq<byte>, buffer: seq<byte>, emitted: seq<seq<byte>>)
    requires Fits(w + (p + rest)) && Agrees(w, buffer, emitted)
    ensures
      var (buffer', emitted') := Written(buffer, emitted, p);
      Agrees(w + p, buffer', emitted')
  {
    hide Drain, Ended, FirstLF, Fits, TrimCR, Written;
    var (lines, open) := Drain(w);
    DrainConcat(w, p);
    FitsTail(w, p + rest);
    if buffer == open && emitted == lines {
      Flush(buffer, emitted, p, Drain(w + p).0, Drain(w + p).1);
    } else {
      AfterEarlyFlush(open, p + rest);
      if p == [] {
        WriteNothing(buffer, emitted);
        assert w + p == w;
      } else if p[0] == LF {
        NewlineAfterFlush(open, p);
        assert lines + ([TrimCR(open)] + Drain(p).0) == lines + [TrimCR(open)] + Drain(p).0;
        assert buffer + p == p;
        Flush(buffer, emitted, p, Drain(w + p).0, Drain(w + p).1);
      } else {
        assert p == [CR] && buffer == [];
        ReturnAfterFlush(open, emitted);
        assert lines + [] == lines;
      }
    }
  }

  lemma WriteNothing(buffer: seq<byte>, emitted: seq<seq<byte>>)
    requires LF !in buffer && |buffer| <= CAP
    ensures Written(buffer, emitted, []) == (buffer, emitted)
  {
    hide Drain;
    DrainUnfold(buffer);
    assert buffer + [] == buffer && emitted + [] == emitted;
  }

  // The newline of a run that was flushed early ends an empty run.
  lemma NewlineAfterFlush(open: seq<byte>, p: seq<byte>)
    requires LF !in open && open != [] && p != [] && p[0] == LF
    ensures Drain(open + p) == ([TrimCR(open)] + Drain(p).0, Drain(p).1)
  {
    hide Drain, TrimCR, FirstLF;
    FirstLFBeyond(open, p);
    DrainUnfold(open + p);
    DrainUnfold(p);
    assert (open + p)[..|open|] == open && (open + p)[|open| + 1..] == p[1..];
    assert p[..0] == [] && [] + Drain(p[1..]).0 == Drain(p[1..]).0;
    assert [TrimCR(open)] + Drain(p).0 == Ended(open) + Drain(p[1..]).0;
  }

  lemma ReturnAfterFlush(open: seq<byte>, emitted: seq<seq<byte>>)
    requires LF !in open && open != [] && open[|open| - 1] != CR
    ensures Drain(open + [CR]) == ([], open + [CR]) && TrimCR(open + [CR]) == TrimCR(open)
    ensures Written([], emitted, [CR]) == ([CR], emitted)
  {
    hide Drain;
    DrainUnfold(open + [CR]);
    DrainUnfold([CR]);
    assert [] + [CR] == [CR] && emitted + [] == emitted;
    assert (open + [CR])[..|open|] == open;
  }

  lemma {:induction false} FedAgrees(parts: seq<seq<byte>>, rest: seq<byte>)
    requires Fits(Concat(parts) + rest)
    ensures Agrees(Concat(parts), Fed(parts).0, Fed(parts).1)
  {
    hide Fits, Written;
    if parts == [] {
      DrainUnfold([]);
    } else {
      var init, p := parts[..|parts| - 1], parts[|parts| - 1];
      assert Concat(parts) + rest == Concat(init) + (p + rest);
      FedAgrees(init, p + rest);
      WriteAgrees(Concat(init), p, rest, Fed(init).0, Fed(init).1);
    }
  }

  // A fitting stream gives the same lines however it is cut.
  lemma FittingCutsAgree(parts: seq<seq<byte>>)
    requires Fits(Concat(parts))
    ensures Emitted(parts) == Lines(Concat(parts))
  {
    hide Fits, Drain;
    assert Concat(parts) + [] == Concat(parts);
    FedAgrees(parts, []);
    assert Flushed([CR]) == [];
  }

  // ------------------------------------------------------- streams that do not fit

  // The stream's first run is too long.
  predicate Overlong(r: seq<byte>) {
    var i := FirstLF(r);
    if i == |r| then !LastFits(r) else i > CAP + 1
  }

  // A stream that does not fit has an overlong run behind some complete lines.
  lemma {:induction false} FindOverlong(s: seq<byte>) returns (w: seq<byte>, r: seq<byte>)
    requires !Fits(s)
    ensures s == w + r && Overlong(r) && Drain(w).1 == []
    decreases |s|
  {
    hide Drain, FirstLF, LastFits;
    var i := FirstLF(s);
    if Overlong(s) {
      w, r := [], s;
      DrainUnfold([]);
    } else {
      w, r := FindOverlong(s[i + 1..]);
      LineThen(s[..i], w);
      assert s == s[..i] + [LF] + s[i + 1..];
      w := s[..i] + [LF] + w;
    }
  }

  lemma LineThen(run: seq<byte>, w: seq<byte>)
    requires LF !in run
    ensures Drain(run + [LF] + w).1 == Drain(w).1
  {
    hide Drain;
    FirstLFBeyond(run, [LF] + w);
    assert run + ([LF] + w) == run + [LF] + w;
    DrainUnfold(run + [LF] + w);
    assert (run + [LF] + w)[|run| + 1..] == w;
  }

  lemma DrainOpen(r: seq<byte>)
    requires LF !in r
    ensures Drain(r) == ([], r) && Lines(r) == Flushed(r)
  {
    DrainUnfold(r);
  }

  // Cutting an overlong run just past the cap changes the lines.
  lemma OverlongDiffers(r: seq<byte>)
    requires Overlong(r)
    ensures |r| > CAP + 1 && LF !in r[..CAP + 1]
    ensures Lines(r) != [TrimCR(r[..CAP + 1])] + Lines(r[CAP + 1..])
  {
    hide Drain, FirstLF;
    var x, y, i := r[..CAP + 1], r[CAP + 1..], FirstLF(r);
    assert forall k :: 0 <= k < CAP + 1 ==> x[k] == r[..i][k];
    assert x + y == r;
    FirstLFBeyond(x, y);
    if i == |r| {
      assert LF !in r[..i] && r[..i] == r;
      LastDiffers(r);
    } else {
      EndedDiffers(x, y);
    }
  }

  lemma EndedDiffers(x: seq<byte>, y: seq<byte>)
    requires x != [] && LF !in x && LF in y && y[0] != LF
    ensures Lines(x + y) != [TrimCR(x)] + Lines(y)
  {
    hide Drain, FirstLF;
    var j := FirstLF(y);
    FirstLFBeyond(x, y);
    DrainUnfold(x + y);
    DrainUnfold(y);
    assert (x + y)[|x| + j + 1..] == y[j + 1..];
    assert |Lines(x + y)| == |Lines(y)|;
  }

  lemma LastDiffers(r: seq<byte>)
    requires LF !in r && !LastFits(r)
    ensures Lines(r) != [TrimCR(r[..CAP + 1])] + Lines(r[CAP + 1..])
  {
    hide Drain, Lines;
    var x, y := r[..CAP + 1], r[CAP + 1..];
    DrainOpen(r);
    DrainOpen(y);
    if y == [CR] {
      assert r[|r| - 1] == y[0] && |r| == CAP + 2;
      assert |TrimCR(x)| != |TrimCR(r)|;
      assert Lines(r)[0] == TrimCR(r);
    } else {
      assert |Lines(y)| == 1 && |Lines(r)| == 1;
    }
  }

  // The writer's lines for a stream cut at an overlong run.
  lemma CutLines(w: seq<byte>, x: seq<byte>, y: seq<byte>)
    requires Drain(w).1 == [] && LF !in x && |x| > CAP
    ensures Concat([w + x, y]) == w + (x + y)
    ensures Emitted([w + x, y]) == Drain(w).0 + ([TrimCR(x)] + Lines(y))
  {
    hide Drain, Flushed, TrimCR, Written;
    var lines := Drain(w).0;
    TwoParts(w + x, y);
    assert w + x + y == w + (x + y) && [] + (w + x) == w + x && [] + x == x;
    DrainConcat(w, x);
    DrainUnfold(x);
    assert lines + [] == lines && [] + lines == lines;
    Flush([], [], w + x, lines, x);
    SecondPart(lines + [TrimCR(x)], y);
  }

  lemma TwoParts(a: seq<byte>, b: seq<byte>)
    ensures Concat([a, b]) == a + b
    ensures
      var (buffer, emitted) := Written([], [], a);
      Fed([a, b]) == Written(buffer, emitted, b)
  {
    hide Written;
    assert [a, b][..1] == [a] && [a][..0] == [];
    assert Concat([a]) == [] + a == a;
    assert Fed([a]) == Written([], [], a);
  }

  lemma NothingToFlush()
    ensures Flushed([]) == []
  {}

  lemma SecondPart(emitted: seq<seq<byte>>, y: seq<byte>)
    ensures Written([], emitted, y).1 + Flushed(Written([], emitted, y).0) == emitted + Lines(y)
  {
    hide Drain, TrimCR;
    assert [] + y == y;
    NothingToFlush();
    assert emitted + Drain(y).0 + Flushed(Drain(y).1) == emitted + Lines(y);
  }

  lemma LinesConcat(w: seq<byte>, r: seq<byte>)
    requires Drain(w).1 == []
    ensures Lines(w + r) == Drain(w).0 + Lines(r)
  {
    hide Drain, Flushed;
    DrainConcat(w, r);
    assert [] + r == r;
  }

  // Every way to cut a stream into writes gives the same lines exactly when the
  // stream fits.
  lemma CutsAgreeIff(s: seq<byte>)
    ensures CutsAgree(s) <==> Fits(s)
  {
    hide Lines, Emitted, Fits, Overlong;
    if Fits(s) {
      forall parts | Concat(parts) == s
        ensures Emitted(parts) == Lines(s)
      {
        FittingCutsAgree(parts);
      }
    } else {
      var w, r := FindOverlong(s);
      OverlongDiffers(r);
      var x, y := r[..CAP + 1], r[CAP + 1..];
      assert x + y == r;
      CutLines(w, x, y);
      LinesConcat(w, r);
      var lines, a, b := Drain(w).0, Lines(r), [TrimCR(x)] + Lines(y);
      assert (lines + a)[|lines|..] == a && (lines + b)[|lines|..] == b;
    }
  }
}
