/**
 One end of a shared connection as the code has it: the write that is a run of the system's steps, and the flag
 that lets one caller close the socket, until the connection is handed back and the flag is clear again.
 */
module Connections {
  import opened Common
  import opened Frame
  import opened SharedConnection

  // ---------------------------------------------------------------- closing the socket

  predicate Pattern(acts: seq<Action>, i: nat, j: nat, k: nat) {
    i < j < k < |acts| && acts[i] == Close && acts[j] == Reset && acts[k] == Close
  }

  /** Some Close in the run follows a Reset that follows a Close. */
  ghost predicate ReopenedAndClosed(acts: seq<Action>) {
    exists i: nat, j: nat, k: nat :: Pattern(acts, i, j, k)
  }

  /** Some Close in the run is followed by no Reset. */
  predicate LeftClosed(acts: seq<Action>) {
    exists i :: 0 <= i < |acts| && acts[i] == Close && forall j :: i < j < |acts| ==> acts[j] != Reset
  }

  lemma {:induction false} FlagAndCount(init: State, acts: seq<Action>)
    requires Init(init) && Runs(init, acts)
    ensures var s := Exec(init, acts);
            && (s.closed <==> LeftClosed(acts))
            && (s.closes >= 1 <==> Close in acts)
            && (s.closes >= 2 <==> ReopenedAndClosed(acts))
    decreases |acts|
  {
    if acts != [] {
      var before, last := acts[..|acts| - 1], acts[|acts| - 1];
      assert before + [last] == acts;
      RunSplits(init, before, last);
      FlagAndCount(init, before);
      hide Enabled, Apply, Runs, Exec, ReopenedAndClosed, LeftClosed;
      LeftClosedGrows(before, last);
      ReopenedGrows(before, last);
      ClosedIsCounted(before);
      CloseCounts(Exec(init, before), last);
    }
  }

  lemma {:induction false} RunSplits(s: State, before: seq<Action>, last: Action)
    requires Runs(s, before + [last])
    ensures Runs(s, before) && Enabled(Exec(s, before), last)
    ensures Exec(s, before + [last]) == Apply(Exec(s, before), last)
    decreases |before|
  {
    hide Enabled, Apply;
    if before == [] {
      assert [] + [last] == [last] && [last][1..] == [];
    } else {
      assert (before + [last])[1..] == before[1..] + [last];
      RunSplits(Apply(s, before[0]), before[1..], last);
    }
  }

  lemma CloseCounts(s: State, a: Action)
    requires Enabled(s, a)
    ensures var s' := Apply(s, a);
            && s'.closed == (a == Close || (s.closed && a != Reset))
            && s'.closes == s.closes + if a == Close && !s.closed then 1 else 0
  {
  }

  lemma ClosedIsCounted(acts: seq<Action>)
    ensures LeftClosed(acts) ==> Close in acts
  {
  }

  lemma LeftClosedGrows(before: seq<Action>, last: Action)
    ensures LeftClosed(before + [last]) <==> last == Close || (LeftClosed(before) && last != Reset)
  {
    var acts := before + [last];
    assert acts[|before|] == last && forall i :: 0 <= i < |before| ==> acts[i] == before[i];
    if LeftClosed(acts) && last != Close {
      var i :| 0 <= i < |acts| && acts[i] == Close && forall j :: i < j < |acts| ==> acts[j] != Reset;
      assert before[i] == Close && forall j :: i < j < |before| ==> before[j] != Reset;
    }
    if last != Reset && LeftClosed(before) {
      var i :| 0 <= i < |before| && before[i] == Close && forall j :: i < j < |before| ==> before[j] != Reset;
      assert acts[i] == Close && forall j :: i < j < |acts| ==> acts[j] != Reset;
    }
  }

  /** One more Close reopens and closes if a Close before it is not what the run left it at. */
  lemma ReopenedGrows(before: seq<Action>, last: Action)
    ensures ReopenedAndClosed(before + [last])
            <==> ReopenedAndClosed(before) || (last == Close && Close in before && !LeftClosed(before))
  {
    var acts := before + [last];
    if i: nat, j: nat, k: nat :| Pattern(before, i, j, k) {
      assert Pattern(acts, i, j, k);
    }
    if last == Close && Close in before && !LeftClosed(before) {
      var i, j := ResetAfterClose(before);
      assert Pattern(acts, i, j, |before|);
    }
    if i: nat, j: nat, k: nat :| Pattern(acts, i, j, k) {
      PatternWasThere(before, last, i, j, k);
    }
  }

  lemma ResetAfterClose(acts: seq<Action>) returns (i: nat, j: nat)
    requires Close in acts && !LeftClosed(acts)
    ensures i < j < |acts| && acts[i] == Close && acts[j] == Reset
  {
    i :| i < |acts| && acts[i] == Close;
    j :| i < j < |acts| && acts[j] == Reset;
  }

  lemma PatternWasThere(before: seq<Action>, last: Action, i: nat, j: nat, k: nat)
    requires Pattern(before + [last], i, j, k)
    ensures ReopenedAndClosed(before) || (last == Close && Close in before && !LeftClosed(before))
  {
    assert before[i] == Close && before[j] == Reset;
    if k < |before| {
      assert Pattern(before, i, j, k);
    } else if LeftClosed(before) {
      var c: nat :| c < |before| && before[c] == Close && forall r :: c < r < |before| ==> before[r] != Reset;
      assert Pattern(before, i, j, c);
    }
  }

  /**
   The socket is closed more than once exactly if some Close follows a Reset that follows a Close: the flag that
   lets one caller close it is cleared when the handler hands the connection back, and a caller that still holds
   it (the heartbeat, or Stop) closes it again.
   */
  lemma SocketClosedAgainIff(init: State, acts: seq<Action>)
    requires Init(init) && Runs(init, acts)
    ensures Exec(init, acts).closes > 1 <==> ReopenedAndClosed(acts)
  {
    FlagAndCount(init, acts);
  }

  /** The shortest such run. */
  lemma SocketClosedTwice(init: State)
    requires Init(init)
    ensures Runs(init, [Close, Reset, Close]) && Exec(init, [Close, Reset, Close]).closes == 2
  {
    var acts := [Close, Reset, Close];
    var s1 := Apply(init, Close);
    var s2 := Apply(s1, Reset);
    assert acts[1..] == [Reset, Close] && [Reset, Close][1..] == [Close] && [Close][1..] == [];
    assert Runs(s2, [Close]) && Exec(s2, [Close]) == Apply(s2, Close);
    assert Runs(s1, [Reset, Close]) && Exec(s1, [Reset, Close]) == Apply(s2, Close);
  }

  // ---------------------------------------------------------------- the code as steps of the system

  datatype WriteOutcome = Done | ConnectionClosed | TooLong | SocketFailed

  class Connection {
    var closed: bool
    var socketCloses: nat
    const maxWriteSize: Limit
    const socket: Writer

    constructor (socket: Writer, maxWriteSize: Limit)
      ensures !closed && socketCloses == 0 && this.socket == socket && this.maxWriteSize == maxWriteSize
    {
      closed, socketCloses := false, 0;
      this.socket, this.maxWriteSize := socket, maxWriteSize;
    }

    /** Compare-and-swap on the flag: only the call that sets it closes the socket. */
    method Close()
      modifies this
      ensures closed && socketCloses == old(socketCloses) + if old(closed) then 0 else 1
    {
      if closed {
        return;
      }
      closed := true;
      socketCloses := socketCloses + 1;
    }

    /** What the pool does with a connection it is handed back: the flag is clear again, the socket as it was. */
    method Reset()
      modifies this
      ensures !closed && socketCloses == old(socketCloses)
    {
      closed := false;
    }

    /**
     Writes any bytes under the lock, in as many pieces as the socket takes them. `takes` says how many it
     took at a time; WriteIsARun says what that means for the connection as a whole.
     */
    method Write(data: Bytes) returns (r: WriteOutcome, ghost takes: seq<nat>)
      modifies socket
      ensures r == ConnectionClosed <==> closed
      ensures r == TooLong <==> !closed && maxWriteSize > 0 && |data| % TWO_32 > maxWriteSize
      ensures r == ConnectionClosed || r == TooLong ==> takes == []
      ensures Took(takes, r == SocketFailed) && Sum(takes) <= |data|
      ensures socket.sent == old(socket.sent) + data[..Sum(takes)]
      ensures r == Done ==> Sum(takes) == |data|
    {
      takes := [];
      if closed {
        return ConnectionClosed, takes;
      }
      if maxWriteSize > 0 && |data| % TWO_32 > maxWriteSize {
        return TooLong, takes;
      }
      var ok;
      ok, takes := WriteFull(socket, data);
      if !ok {
        return SocketFailed, takes;
      }
      return Done, takes;
    }
  }

  /** The steps of a write that got the lock. */
  function Chunks(takes: seq<nat>): seq<Action> {
    seq(|takes|, i requires 0 <= i < |takes| => Chunk(takes[i]))
  }

  function WriteSteps(w: nat, takes: seq<nat>, failed: bool): seq<Action>
    requires Took(takes, failed)
  {
    if failed then [Lock(w)] + Chunks(takes[..|takes| - 1]) + [Fail(takes[|takes| - 1])]
    else [Lock(w)] + Chunks(takes) + [Unlock]
  }

  /** While writer w holds the lock, `sent` bytes of its data are out. */
  predicate Holding(s: State, acts: seq<Action>, data: Bytes, sent: nat) {
    && Runs(s, acts) && sent <= |data|
    && var m := Exec(s, acts);
       && m.holder.Some? && m.owed == data[sent..] && m.stream == s.stream + data[..sent]
       && m.log != [] && m.tried != []
  }

  lemma HoldingBegins(s: State, w: nat)
    requires Enabled(s, Lock(w))
    ensures Holding(s, [Lock(w)], s.todo[w][0], 0)
  {
    hide Encode;
    var data := s.todo[w][0];
    RunGrows(s, [], Lock(w));
    assert [] + [Lock(w)] == [Lock(w)] && data[0..] == data && s.stream + data[..0] == s.stream;
  }

  lemma HoldingGoesOn(s: State, acts: seq<Action>, data: Bytes, sent: nat, n: nat)
    requires Holding(s, acts, data, sent) && 0 < n && sent + n <= |data|
    ensures Holding(s, acts + [Chunk(n)], data, sent + n)
  {
    hide Runs, Exec, Encode;
    RunGrows(s, acts, Chunk(n));
    TakesOn(data, sent, n);
    assert (s.stream + data[..sent]) + data[sent..][..n] == s.stream + (data[..sent] + data[sent..][..n]);
  }

  lemma {:induction false} HoldingThroughChunks(s: State, w: nat, takes: seq<nat>)
    requires Enabled(s, Lock(w)) && Took(takes, false) && Sum(takes) <= |s.todo[w][0]|
    ensures Holding(s, [Lock(w)] + Chunks(takes), s.todo[w][0], Sum(takes))
  {
    hide Holding, Encode;
    if takes == [] {
      HoldingBegins(s, w);
      assert [Lock(w)] + Chunks([]) == [Lock(w)];
    } else {
      var before, n := takes[..|takes| - 1], takes[|takes| - 1];
      HoldingThroughChunks(s, w, before);
      HoldingGoesOn(s, [Lock(w)] + Chunks(before), s.todo[w][0], Sum(before), n);
      assert [Lock(w)] + Chunks(takes) == ([Lock(w)] + Chunks(before)) + [Chunk(n)];
    }
  }

  lemma HoldingFails(s: State, acts: seq<Action>, data: Bytes, sent: nat, n: nat)
    requires Holding(s, acts, data, sent) && sent + n <= |data|
    ensures Runs(s, acts + [Fail(n)]) && Exec(s, acts + [Fail(n)]).stream == s.stream + data[..sent + n]
    ensures Exec(s, acts + [Fail(n)]).holder == None
  {
    hide Left, Runs, Exec, Encode;
    RunGrows(s, acts, Fail(n));
    TakesOn(data, sent, n);
  }

  lemma HoldingEnds(s: State, acts: seq<Action>, data: Bytes)
    requires Holding(s, acts, data, |data|)
    ensures Runs(s, acts + [Unlock]) && Exec(s, acts + [Unlock]).stream == s.stream + data
    ensures Exec(s, acts + [Unlock]).holder == None
  {
    RunGrows(s, acts, Unlock);
    hide Runs, Exec;
    assert data[..|data|] == data;
  }

  /**
   A write by whoever may take the lock, of what it means to write, is a run of the shared connection:
   Lock, a Chunk for each piece, then Unlock if all went out and Fail if the socket gave up. It puts on the
   stream what the socket took, and lets the lock go.
   */
  lemma WriteIsARun(s: State, w: nat, takes: seq<nat>, failed: bool)
    requires Enabled(s, Lock(w)) && Took(takes, failed) && Sum(takes) <= |s.todo[w][0]|
    requires !failed ==> Sum(takes) == |s.todo[w][0]|
    ensures var acts := WriteSteps(w, takes, failed);
            && Runs(s, acts) && Exec(s, acts).holder == None
            && Exec(s, acts).stream == s.stream + s.todo[w][0][..Sum(takes)]
  {
    hide Holding, Encode, Runs, Exec;
    var data := s.todo[w][0];
    if failed {
      var before, n := takes[..|takes| - 1], takes[|takes| - 1];
      HoldingThroughChunks(s, w, before);
      HoldingFails(s, [Lock(w)] + Chunks(before), data, Sum(before), n);
    } else {
      HoldingThroughChunks(s, w, takes);
      HoldingEnds(s, [Lock(w)] + Chunks(takes), data);
      assert data[..Sum(takes)] == data;
    }
  }
}
