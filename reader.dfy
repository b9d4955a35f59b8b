/** The card reader of app/serial_reader.py: uid normalisation, port auto-detection and
    the `CardReader` flags with its worker loop.

    The serial port is abstract: a port is a `(device, description)` pair, and what the
    worker sees is a trace of `Poll` results, one per pass through its loop. The other
    thread's `stop()` is a `StopRequested` entry of that trace. */
module Reader {
  import opened Strings
  import opened Records

  /** `normalize_uid`: strip, upper-case, drop every space. The result holds no space
      and does not start or end with whitespace; a uid that starts with a character
      other than whitespace normalises to something (`NormalizeBlank` gives the exact
      condition). */
  function NormalizeUid(uid: string): (r: string)
    ensures ' ' !in r
    ensures r != [] ==> !IsSpace(r[0]) && !IsSpace(r[|r| - 1])
    ensures uid != [] && !IsSpace(uid[0]) ==> r != []
  {
    var s := Strip(uid);
    StripKeepsFirst(uid);
    NormalizedEnds(s);
    RemoveChar(Upper(s), ' ')
  }

  /** A uid normalises to nothing exactly when it is all whitespace. */
  lemma NormalizeBlank(uid: string)
    ensures NormalizeUid(uid) == [] <==> forall k :: 0 <= k < |uid| ==> IsSpace(uid[k])
  {
    NormalizedEnds(Strip(uid));
    StripBlank(uid);
  }

  /** Upper-casing neither makes nor removes whitespace. */
  lemma UpperKeepsSpace(c: char)
    ensures IsSpace(UpperChar(c)) == IsSpace(c)
  {
  }

  /** Of a stripped string, upper-casing and dropping the spaces keeps the ends free of
      whitespace, and leaves something exactly when there was something. */
  lemma NormalizedEnds(s: string)
    requires s != [] ==> !IsSpace(s[0]) && !IsSpace(s[|s| - 1])
    ensures var r := RemoveChar(Upper(s), ' ');
      (r != [] ==> !IsSpace(r[0]) && !IsSpace(r[|r| - 1])) && (r == [] <==> s == [])
  {
    if s != [] {
      UpperKeepsSpace(s[0]);
      UpperKeepsSpace(s[|s| - 1]);
      RemoveCharKeepsEnds(Upper(s), ' ');
    }
  }

  /** Normalising twice gives what normalising once gives. */
  lemma NormalizeIdempotent(uid: string)
    ensures NormalizeUid(NormalizeUid(uid)) == NormalizeUid(uid)
  {
    var r := NormalizeUid(uid);
    var u := Upper(Strip(uid));
    StripOfTrimmed(r);
    forall k | 0 <= k < |r| ensures UpperChar(r[k]) == r[k] {
      assert r[k] in r;
      assert r[k] in u;
      var j :| 0 <= j < |u| && u[j] == r[k];
    }
    assert Upper(r) == r;
    RemoveAbsentChar(r, ' ');
  }

  /** A serial port as `list_ports.comports()` describes it. */
  datatype Port = Port(device: string, description: string)

  /** The adapter names searched for in a port's description (case-sensitive). */
  const SIGNATURES: seq<string> := ["Arduino", "CH340", "USB Serial"]

  /** The description names a known adapter. */
  predicate IsKnownAdapter(p: Port) {
    exists k :: 0 <= k < |SIGNATURES| && Contains(p.description, SIGNATURES[k])
  }

  /** `auto_detect_port`: the first port naming a known adapter, else the first port,
      else nothing. */
  method AutoDetectPort(ports: seq<Port>) returns (device: Option<string>)
    ensures device.None? <==> ports == []
    ensures forall i :: (0 <= i < |ports| && IsKnownAdapter(ports[i])
      && forall j :: 0 <= j < i ==> !IsKnownAdapter(ports[j])) ==> device == Some(ports[i].device)
    ensures ports != [] && (forall i :: 0 <= i < |ports| ==> !IsKnownAdapter(ports[i]))
      ==> device == Some(ports[0].device)
  {
    var i := 0;
    while i < |ports|
      invariant 0 <= i <= |ports|
      invariant forall j :: 0 <= j < i ==> !IsKnownAdapter(ports[j])
    {
      if IsKnownAdapter(ports[i]) {
        return Some(ports[i].device);
      }
      i := i + 1;
    }
    if ports != [] {
      return Some(ports[0].device);
    }
    return None;
  }

  /** One pass of the worker loop: nothing waiting, a line read, a read or decode error,
      or the other thread calling `stop()`. */
  datatype Poll = Idle | Line(text: string) | ReadError | StopRequested

  /** How a trace ends the loop: by a stop, by a read error, or not at all. */
  datatype Exit = Stopped | Failed | StillRunning

  /** The uid one line of input hands to the callback: none for a blank line, else the
      stripped line normalised. */
  function LineUids(text: string): seq<string> {
    var line := Strip(text);
    if line == [] then [] else [NormalizeUid(line)]
  }

  /** A line hands over at most one uid, never empty and never holding a space. */
  lemma LineUidsWellFormed(text: string)
    ensures |LineUids(text)| <= 1
    ensures forall k :: 0 <= k < |LineUids(text)| ==> LineUids(text)[k] != [] && ' ' !in LineUids(text)[k]
  {
  }

  /** A pass that ends the loop. */
  predicate Ends(p: Poll) {
    p.ReadError? || p.StopRequested?
  }

  /** The uids one pass hands to the callback. */
  function PassUids(p: Poll): seq<string> {
    if p.Line? then LineUids(p.text) else []
  }

  /** How the loop ends when it is still running at pass `i`: the first `ReadError` or
      `StopRequested` from there on decides. */
  function ExitFrom(polls: seq<Poll>, i: nat): Exit
    decreases |polls| - i
  {
    if i >= |polls| then StillRunning
    else if polls[i].ReadError? then Failed
    else if polls[i].StopRequested? then Stopped
    else ExitFrom(polls, i + 1)
  }

  /** The uids handed to the callback from pass `i` on: every line that is not blank
      after stripping, normalised, in order, up to the first error or stop. */
  function DeliveredFrom(polls: seq<Poll>, i: nat): seq<string>
    decreases |polls| - i
  {
    if i >= |polls| || Ends(polls[i]) then [] else PassUids(polls[i]) + DeliveredFrom(polls, i + 1)
  }

  /** The worker's running total stays on course across pass `i`: what was handed so far
      plus what is still to come is the whole delivery. */
  lemma HandOn(handed: seq<string>, polls: seq<Poll>, i: nat, whole: seq<string>)
    requires i < |polls| && handed + DeliveredFrom(polls, i) == whole
    ensures !Ends(polls[i]) ==> (handed + PassUids(polls[i])) + DeliveredFrom(polls, i + 1) == whole
  {
    if !Ends(polls[i]) {
      AppendAssoc(handed, PassUids(polls[i]), DeliveredFrom(polls, i + 1));
    }
  }

  /** Once the loop leaves at pass `i`, by the end of the trace, an error or a stop,
      everything has been handed over, and the trace's exit is the reason it left. */
  lemma Settled(handed: seq<string>, polls: seq<Poll>, i: nat, whole: seq<string>)
    requires i <= |polls| && handed + DeliveredFrom(polls, i) == whole
    requires i == |polls| || Ends(polls[i])
    ensures handed == whole
    ensures i == |polls| ==> ExitFrom(polls, i) == StillRunning
    ensures i < |polls| && polls[i].ReadError? ==> ExitFrom(polls, i) == Failed
    ensures i < |polls| && polls[i].StopRequested? ==> ExitFrom(polls, i) == Stopped
  {
    assert DeliveredFrom(polls, i) == [];
    assert handed + [] == handed;
  }

  /** How a whole trace ends the loop. */
  function ExitOf(polls: seq<Poll>): Exit {
    ExitFrom(polls, 0)
  }

  /** The uids a running worker hands to the callback for a whole trace. */
  function Delivered(polls: seq<Poll>): seq<string> {
    DeliveredFrom(polls, 0)
  }

  /** At most one uid per pass, and none of them empty or holding a space. */
  lemma {:induction false} DeliveredWellFormed(polls: seq<Poll>, i: nat)
    requires i <= |polls|
    ensures |DeliveredFrom(polls, i)| <= |polls| - i
    ensures forall k :: 0 <= k < |DeliveredFrom(polls, i)| ==>
      DeliveredFrom(polls, i)[k] != [] && ' ' !in DeliveredFrom(polls, i)[k]
    decreases |polls| - i
  {
    if i < |polls| && !Ends(polls[i]) {
      DeliveredWellFormed(polls, i + 1);
      if polls[i].Line? {
        LineUidsWellFormed(polls[i].text);
      }
      var head := PassUids(polls[i]);
      var tail := DeliveredFrom(polls, i + 1);
      forall k | 0 <= k < |head + tail| ensures (head + tail)[k] != [] && ' ' !in (head + tail)[k] {
        if k >= |head| {
          assert (head + tail)[k] == tail[k - |head|];
        }
      }
    }
  }

  /** A trace appended after `a` is read from position `|a|` on exactly as on its own. */
  lemma {:induction false} DeliveredShift(a: seq<Poll>, b: seq<Poll>, j: nat)
    requires j <= |b|
    ensures DeliveredFrom(a + b, |a| + j) == DeliveredFrom(b, j)
    ensures ExitFrom(a + b, |a| + j) == ExitFrom(b, j)
    decreases |b| - j
  {
    if j < |b| {
      assert (a + b)[|a| + j] == b[j];
      DeliveredShift(a, b, j + 1);
    }
  }

  /** On a trace with no error and no stop from pass `i` on, every non-blank line is
      delivered, once, in order, and lines are never merged: the deliveries of two traces
      compose. */
  lemma {:induction false} DeliveredFromAppend(a: seq<Poll>, b: seq<Poll>, i: nat)
    requires i <= |a| && ExitFrom(a, i) == StillRunning
    ensures DeliveredFrom(a + b, i) == DeliveredFrom(a, i) + Delivered(b)
    ensures ExitFrom(a + b, i) == ExitOf(b)
    decreases |a| - i
  {
    if i == |a| {
      DeliveredShift(a, b, 0);
    } else {
      assert (a + b)[i] == a[i];
      DeliveredFromAppend(a, b, i + 1);
      AppendAssoc(PassUids(a[i]), DeliveredFrom(a, i + 1), Delivered(b));
    }
  }

  /** The deliveries of two traces compose when the first neither fails nor stops. */
  lemma DeliveredAppend(a: seq<Poll>, b: seq<Poll>)
    requires ExitOf(a) == StillRunning
    ensures Delivered(a + b) == Delivered(a) + Delivered(b)
    ensures ExitOf(a + b) == ExitOf(b)
  {
    DeliveredFromAppend(a, b, 0);
  }

  /** The reader's state flags and whether its serial handle is open. */
  class CardReader {
    const selectedPort: string
    var cardModeRunning: bool
    var readerEnabled: bool
    var portOpen: bool

    /** A new reader is stopped and has no open handle. */
    constructor (selectedPort: string)
      ensures this.selectedPort == selectedPort
      ensures !cardModeRunning && !readerEnabled && !portOpen
    {
      this.selectedPort := selectedPort;
      cardModeRunning := false;
      readerEnabled := false;
      portOpen := false;
    }

    /** `start`: nothing when already running; otherwise both flags are set (the worker
        thread it launches is `Worker`). */
    method Start()
      modifies this
      ensures old(cardModeRunning) ==> cardModeRunning && readerEnabled == old(readerEnabled)
      ensures !old(cardModeRunning) ==> cardModeRunning && readerEnabled
      ensures portOpen == old(portOpen)
    {
      if cardModeRunning {
        return;
      }
      readerEnabled := true;
      cardModeRunning := true;
    }

    /** `stop`: from any state, both flags cleared and the handle closed if open. */
    method Stop()
      modifies this
      ensures !cardModeRunning && !readerEnabled && !portOpen
    {
      readerEnabled := false;
      cardModeRunning := false;
      if portOpen {
        portOpen := false;
      }
    }

    /** `_card_mode_worker`: `openOk` says whether the port opened, `polls` is what the
        loop sees, and the result is the sequence of uids passed to the callback. A read
        error ends the loop and closes the handle but leaves both flags set, so a later
        `Start` does nothing until `Stop` is called. */
    method Worker(openOk: bool, polls: seq<Poll>) returns (handed: seq<string>)
      modifies this
      ensures !openOk ==> handed == [] && !cardModeRunning && !readerEnabled && !portOpen
      ensures openOk && !(old(cardModeRunning) && old(readerEnabled)) ==>
        && handed == [] && !portOpen
        && cardModeRunning == old(cardModeRunning) && readerEnabled == old(readerEnabled)
      ensures openOk && old(cardModeRunning) && old(readerEnabled) ==>
        && handed == Delivered(polls)
        && (ExitOf(polls) == Stopped ==> !cardModeRunning && !readerEnabled && !portOpen)
        && (ExitOf(polls) == Failed ==> cardModeRunning && readerEnabled && !portOpen)
        && (ExitOf(polls) == StillRunning ==> cardModeRunning && readerEnabled && portOpen)
    {
      handed := [];
      if !openOk {
        Stop();
        return;
      }
      portOpen := true;
      ghost var whole := Delivered(polls);
      var failed := false;
      var stopped := false;
      var i := 0;
      // The flags change only through `stop()` on the other thread, which is a
      // `StopRequested` pass: the loop leaves there, and `Stop` runs once it has left.
      while cardModeRunning && readerEnabled && i < |polls|
        invariant 0 <= i <= |polls| && !failed && !stopped && portOpen
        invariant cardModeRunning == old(cardModeRunning) && readerEnabled == old(readerEnabled)
        invariant !(cardModeRunning && readerEnabled) ==> handed == []
        invariant handed + DeliveredFrom(polls, i) == whole && ExitFrom(polls, i) == ExitOf(polls)
      {
        if polls[i].ReadError? {
          Settled(handed, polls, i, whole);
          failed := true;
          break;
        } else if polls[i].StopRequested? {
          Settled(handed, polls, i, whole);
          stopped := true;
          break;
        }
        HandOn(handed, polls, i, whole);
        handed := handed + PassUids(polls[i]);
        i := i + 1;
      }
      if !failed && !stopped && cardModeRunning && readerEnabled {
        Settled(handed, polls, i, whole);
      }
      if stopped {
        Stop();
      }
      if failed && portOpen {
        portOpen := false;
      }
      if !(cardModeRunning && readerEnabled) && portOpen {
        portOpen := false;
      }
    }
  }
}
