/** The watch stream: one channel after another, resumed from the version of the last
    event handled. */
module Watch {
  import opened Common

  datatype ChangeType = Added | Modified | Deleted

  /** One change in the API server's log.  `readable`: its metadata can be accessed.
      `summary`: what the kind's mapper makes of it, if it can. */
  datatype Event = Event(version: int, change: ChangeType, ns: string, name: string, readable: bool,
                         summary: Option<string>)

  datatype Item = Live(e: Event) | Bookmark(version: int, readable: bool) | ErrorEvent

  /** What the select picks next. */
  datatype Signal =
    | Cancelled
    | Ping(ok: bool)
    | Closed
    | Received(item: Item, sendOk: bool)

  datatype Message =
    | Change(change: ChangeType, ns: string, name: string, version: int, summary: Option<string>)
    | ErrorFrame(notInstalled: bool)

  /** How streamWatch stands: still pumping, channel over (watch again), connection over.
      `Rejected`: the server refused the next watch and the client was told. */
  datatype End = Pumping | Again | Over | SendFailed | Rejected

  /** `rv` 0 stands for the empty version. */
  datatype Pumped = Pumped(end: End, rv: int, sent: seq<Message>)

  function MessageOf(e: Event, hot: bool): Message {
    Change(e.change, e.ns, e.name, e.version, if hot && !e.change.Deleted? then e.summary else None)
  }

  function Prepend(sent: seq<Message>, p: Pumped): Pumped {
    p.(sent := sent + p.sent)
  }

  /** streamWatch over the signals of one channel. */
  function Pump(signals: seq<Signal>, rv: int, hot: bool): Pumped {
    if signals == [] then Pumped(Pumping, rv, [])
    else
      var rest := signals[1..];
      match signals[0]
      case Cancelled => Pumped(Over, rv, [])
      case Ping(ok) => if ok then Pump(rest, rv, hot) else Pumped(Over, rv, [])
      case Closed => Pumped(Again, rv, [])
      case Received(ErrorEvent, _) => Pumped(Again, 0, [])
      case Received(Bookmark(v, readable), _) => Pump(rest, if readable then v else rv, hot)
      case Received(Live(e), sendOk) =>
        if !e.readable then Pump(rest, rv, hot)
        else if sendOk then Prepend([MessageOf(e, hot)], Pump(rest, e.version, hot))
        else Pumped(SendFailed, e.version, [])
  }

  method StreamWatch(signals: seq<Signal>, rv: int, hot: bool) returns (end: End, rv': int, sent: seq<Message>)
    ensures Pumped(end, rv', sent) == Pump(signals, rv, hot)
  {
    end, rv', sent := Pumping, rv, [];
    var i := 0;
    while i < |signals|
      invariant 0 <= i <= |signals|
      invariant Prepend(sent, Pump(signals[i..], rv', hot)) == Pump(signals, rv, hot)
    {
      assert signals[i..][1..] == signals[i + 1..];
      match signals[i] {
        case Cancelled => return Over, rv', sent;
        case Ping(ok) => if !ok { return Over, rv', sent; }
        case Closed => return Again, rv', sent;
        case Received(ErrorEvent, _) => return Again, 0, sent;
        case Received(Bookmark(v, readable), _) => if readable { rv' := v; }
        case Received(Live(e), sendOk) =>
          if e.readable {
            rv' := e.version;
            var summary := None;
            if hot && e.change != Deleted { summary := e.summary; }
            if !sendOk { return SendFailed, rv', sent; }
            assert sent + ([MessageOf(e, hot)] + Pump(signals[i + 1..], rv', hot).sent)
                == sent + [MessageOf(e, hot)] + Pump(signals[i + 1..], rv', hot).sent;
            sent := sent + [Change(e.change, e.ns, e.name, rv', summary)];
          }
      }
      i := i + 1;
    }
  }

  /** One try to watch: refused, or a channel. */
  datatype Session = Refused(notInstalled: bool) | Channel(signals: seq<Signal>)

  /** The re-watch loop: what is sent over all sessions, and the version each starts from. */
  datatype Watched = Watched(last: Pumped, starts: seq<int>)

  function WatchFrom(sessions: seq<Session>, rv: int, hot: bool): Watched {
    if sessions == [] then Watched(Pumped(Again, rv, []), [])
    else
      match sessions[0]
      case Refused(notInstalled) => Watched(Pumped(Rejected, rv, [ErrorFrame(notInstalled)]), [rv])
      case Channel(signals) =>
        var p := Pump(signals, rv, hot);
        if p.end.Again? then
          Before(p.sent, [rv], WatchFrom(sessions[1..], p.rv, hot))
        else Watched(p, [rv])
  }

  function Before(sent: seq<Message>, starts: seq<int>, w: Watched): Watched {
    Watched(Prepend(sent, w.last), starts + w.starts)
  }

  lemma BeforeBefore(a: seq<Message>, s: seq<int>, b: seq<Message>, t: seq<int>, w: Watched)
    ensures Before(a, s, Before(b, t, w)) == Before(a + b, s + t, w)
  {
    assert a + (b + w.last.sent) == a + b + w.last.sent;
    assert s + (t + w.starts) == s + t + w.starts;
  }

  method WatchLoop(sessions: seq<Session>, hot: bool) returns (last: Pumped, starts: seq<int>)
    ensures Watched(last, starts) == WatchFrom(sessions, 0, hot)
  {
    var rv, sent := 0, [];
    starts := [];
    var i := 0;
    while i < |sessions|
      invariant 0 <= i <= |sessions|
      invariant Before(sent, starts, WatchFrom(sessions[i..], rv, hot)) == WatchFrom(sessions, 0, hot)
    {
      ghost var rest := WatchFrom(sessions[i..], rv, hot);
      assert sessions[i..][1..] == sessions[i + 1..];
      match sessions[i] {
        case Refused(notInstalled) =>
          return Pumped(Rejected, rv, sent + [ErrorFrame(notInstalled)]), starts + [rv];
        case Channel(signals) =>
          var end, rv', more := StreamWatch(signals, rv, hot);
          if end != Again { return Pumped(end, rv', sent + more), starts + [rv]; }
          assert rest == Before(more, [rv], WatchFrom(sessions[i + 1..], rv', hot));
          BeforeBefore(sent, starts, more, [rv], WatchFrom(sessions[i + 1..], rv', hot));
          sent, starts, rv := sent + more, starts + [rv], rv';
      }
      i := i + 1;
    }
    last := Pumped(Again, rv, sent);
  }

  // ---------------------------------------------------------------- the API server

  ghost predicate Increasing(log: seq<Event>) {
    forall i, j :: 0 <= i < j < |log| ==> log[i].version < log[j].version
  }

  /** Exactly the first `k` events are at or before version `v`. */
  ghost predicate At(log: seq<Event>, v: int, k: nat) {
    && k <= |log|
    && (forall i :: 0 <= i < k ==> log[i].version <= v)
    && (forall i :: k <= i < |log| ==> log[i].version > v)
  }

  /** A channel that has delivered up to version `pos`, the first `k` events of the log,
      goes on with the log in order; a bookmark is a version before the next event.
      The log is that of all time: a bookmark also promises that later events are later. */
  ghost predicate Delivers(log: seq<Event>, k: nat, pos: int, signals: seq<Signal>)
    decreases |signals|
  {
    signals == [] ||
    match signals[0]
    case Received(Live(e), _) => k < |log| && e == log[k] && Delivers(log, k + 1, e.version, signals[1..])
    case Received(Bookmark(v, _), _) => v >= pos && At(log, v, k) && Delivers(log, k, v, signals[1..])
    case _ => Delivers(log, k, pos, signals[1..])
  }

  predicate NoError(signals: seq<Signal>) {
    signals == [] || ((signals[0].Received? ==> !signals[0].item.ErrorEvent?) && NoError(signals[1..]))
  }

  // ---------------------------------------------------------------- no gap, no repeat

  /** The messages for the readable events from position `j` up to `k`. */
  function Messages(log: seq<Event>, j: nat, k: nat, hot: bool): seq<Message>
    requires j <= k <= |log|
    decreases k - j
  {
    if j == k then []
    else (if log[j].readable then [MessageOf(log[j], hot)] else []) + Messages(log, j + 1, k, hot)
  }

  lemma {:induction false} MessagesJoin(log: seq<Event>, i: nat, j: nat, k: nat, hot: bool)
    requires i <= j <= k <= |log|
    ensures Messages(log, i, k, hot) == Messages(log, i, j, hot) + Messages(log, j, k, hot)
    decreases j - i
  {
    if i < j { MessagesJoin(log, i + 1, j, k, hot); }
  }

  lemma {:induction false} UnreadableMessages(log: seq<Event>, j: nat, k: nat, hot: bool)
    requires j <= k <= |log| && forall i :: j <= i < k ==> !log[i].readable
    ensures Messages(log, j, k, hot) == []
    decreases k - j
  {
    if j < k { UnreadableMessages(log, j + 1, k, hot); }
  }

  /** Changes of strictly increasing versions above `v`. */
  ghost predicate Rising(sent: seq<Message>, v: int) {
    sent == [] || (sent[0].Change? && sent[0].version > v && Rising(sent[1..], sent[0].version))
  }

  /** The messages after a position carry strictly increasing versions: none twice, none
      out of order. */
  lemma {:induction false} MessagesRise(log: seq<Event>, j: nat, k: nat, v: int, hot: bool)
    requires Increasing(log) && j <= k <= |log| && (j < |log| ==> log[j].version > v)
    ensures Rising(Messages(log, j, k, hot), v)
    decreases k - j
  {
    if j < k {
      if log[j].readable {
        MessagesRise(log, j + 1, k, log[j].version, hot);
        assert Messages(log, j, k, hot)[1..] == Messages(log, j + 1, k, hot);
      } else {
        MessagesRise(log, j + 1, k, v, hot);
        assert Messages(log, j, k, hot) == Messages(log, j + 1, k, hot);
      }
    }
  }

  /** What `sent` is when the client's version goes from position `j` to position `k`:
      exactly the readable events between, the last one missing if its send failed, and an
      error frame behind them if a watch was refused. */
  ghost predicate SentBetween(log: seq<Event>, j: nat, k: nat, end: End, sent: seq<Message>, hot: bool) {
    && j <= k <= |log|
    && match end
       case SendFailed => k > j && log[k - 1].readable
         && sent + [MessageOf(log[k - 1], hot)] == Messages(log, j, k, hot)
       case Rejected => sent != [] && sent[|sent| - 1].ErrorFrame? && sent[..|sent| - 1] == Messages(log, j, k, hot)
       case _ => sent == Messages(log, j, k, hot)
  }

  lemma SkipUnreadable(log: seq<Event>, j: nat, k: nat, last: nat, end: End, sent: seq<Message>, hot: bool)
    requires j <= k && SentBetween(log, k, last, end, sent, hot)
    requires forall i :: j <= i < k ==> !log[i].readable
    ensures SentBetween(log, j, last, end, sent, hot)
  {
    UnreadableMessages(log, j, k, hot);
    MessagesJoin(log, j, k, last, hot);
  }

  lemma AddLive(log: seq<Event>, k: nat, last: nat, end: End, sent: seq<Message>, hot: bool)
    requires k < |log| && log[k].readable && SentBetween(log, k + 1, last, end, sent, hot)
    ensures SentBetween(log, k, last, end, [MessageOf(log[k], hot)] + sent, hot)
  {
    if end.Rejected? {
      var m := [MessageOf(log[k], hot)];
      assert (m + sent)[..|m + sent| - 1] == m + sent[..|sent| - 1];
    }
    if end.SendFailed? {
      assert [MessageOf(log[k], hot)] + (sent + [MessageOf(log[last - 1], hot)])
          == [MessageOf(log[k], hot)] + sent + [MessageOf(log[last - 1], hot)];
    }
  }

  lemma FailedLive(log: seq<Event>, k: nat, hot: bool)
    requires k < |log| && log[k].readable
    ensures SentBetween(log, k, k + 1, SendFailed, [], hot)
  {
    assert Messages(log, k + 1, k + 1, hot) == [];
  }

  lemma AtNext(log: seq<Event>, k: nat)
    requires Increasing(log) && k < |log|
    ensures At(log, log[k].version, k + 1)
  {
  }

  /** One channel without an Error: the client's version sits at position `j`, the channel
      stands at `k`, and what lies between was unreadable. */
  lemma {:induction false} ChannelSendsTheLog(log: seq<Event>, j: nat, k: nat, rv: int, pos: int, signals: seq<Signal>,
                                              hot: bool)
    returns (last: nat)
    requires Increasing(log) && At(log, rv, j) && At(log, pos, k) && j <= k && rv <= pos
    requires forall i :: j <= i < k ==> !log[i].readable
    requires Delivers(log, k, pos, signals) && NoError(signals)
    ensures At(log, Pump(signals, rv, hot).rv, last) && Pump(signals, rv, hot).rv >= rv
    ensures SentBetween(log, j, last, Pump(signals, rv, hot).end, Pump(signals, rv, hot).sent, hot)
    decreases |signals|
  {
    last := j;
    if signals != [] {
      var rest, p := signals[1..], Pump(signals, rv, hot);
      match signals[0]
      case Cancelled =>
      case Closed =>
      case Ping(ok) =>
        if ok { last := ChannelSendsTheLog(log, j, k, rv, pos, rest, hot); }
      case Received(ErrorEvent, _) =>
      case Received(Bookmark(v, readable), _) =>
        if readable {
          last := ChannelSendsTheLog(log, k, k, v, v, rest, hot);
          SkipUnreadable(log, j, k, last, p.end, p.sent, hot);
        } else {
          last := ChannelSendsTheLog(log, j, k, rv, v, rest, hot);
        }
      case Received(Live(e), sendOk) =>
        AtNext(log, k);
        if !e.readable {
          last := ChannelSendsTheLog(log, j, k + 1, rv, e.version, rest, hot);
        } else if sendOk {
          last := ChannelSendsTheLog(log, k + 1, k + 1, e.version, e.version, rest, hot);
          AddLive(log, k, last, p.end, Pump(rest, e.version, hot).sent, hot);
          SkipUnreadable(log, j, k, last, p.end, p.sent, hot);
        } else {
          last := k + 1;
          FailedLive(log, k, hot);
          SkipUnreadable(log, j, k, last, p.end, p.sent, hot);
        }
    }
  }

  lemma AtUnique(log: seq<Event>, v: int, i: nat, j: nat)
    requires At(log, v, i) && At(log, v, j)
    ensures i == j
  {
    assert i < |log| ==> (log[i].version <= v <==> i < j);
    assert j < |log| ==> (log[j].version <= v <==> j < i);
  }

  lemma JoinSent(log: seq<Event>, j: nat, mid: nat, last: nat, first: seq<Message>, end: End, more: seq<Message>,
                 hot: bool)
    requires SentBetween(log, j, mid, Again, first, hot) && SentBetween(log, mid, last, end, more, hot)
    ensures SentBetween(log, j, last, end, first + more, hot)
  {
    MessagesJoin(log, j, mid, last, hot);
    if end.Rejected? {
      assert (first + more)[..|first + more| - 1] == first + more[..|more| - 1];
    }
    if end.SendFailed? {
      assert first + (more + [MessageOf(log[last - 1], hot)]) == first + more + [MessageOf(log[last - 1], hot)];
    }
  }

  /** The server serves every channel from the version it is asked to start from, unless
      that is the empty one, and no Error comes.  It may refuse a watch. */
  ghost predicate ServesAll(log: seq<Event>, sessions: seq<Session>, rv: int, hot: bool)
    decreases |sessions|
  {
    sessions == [] ||
    match sessions[0]
    case Refused(_) => true
    case Channel(signals) =>
      && (rv > 0 ==> exists k: nat :: At(log, rv, k) && Delivers(log, k, rv, signals))
      && NoError(signals)
      && ServesAll(log, sessions[1..], Pump(signals, rv, hot).rv, hot)
  }

  /** Over any number of channels, from a version handled and until an Error, the client is
      sent exactly the readable events after that version, in order, each once. */
  lemma {:induction false} SessionsSendTheLog(log: seq<Event>, sessions: seq<Session>, rv: int, j: nat, hot: bool)
    returns (last: nat)
    requires Increasing(log) && At(log, rv, j) && rv > 0
    requires ServesAll(log, sessions, rv, hot)
    ensures At(log, WatchFrom(sessions, rv, hot).last.rv, last)
    ensures SentBetween(log, j, last, WatchFrom(sessions, rv, hot).last.end, WatchFrom(sessions, rv, hot).last.sent,
      hot)
    decreases |sessions|
  {
    last := j;
    if sessions != [] && sessions[0].Channel? {
      var signals := sessions[0].signals;
      var k: nat :| At(log, rv, k) && Delivers(log, k, rv, signals);
      AtUnique(log, rv, j, k);
      last := ChannelSendsTheLog(log, j, j, rv, rv, signals, hot);
      var p := Pump(signals, rv, hot);
      if p.end.Again? {
        var mid := last;
        last := SessionsSendTheLog(log, sessions[1..], p.rv, mid, hot);
        var more := WatchFrom(sessions[1..], p.rv, hot).last;
        JoinSent(log, j, mid, last, p.sent, more.end, more.sent, hot);
      }
    }
  }

  // ---------------------------------------------------------------- from any point of a run

  lemma {:induction false} PumpJoin(before: seq<Signal>, rest: seq<Signal>, rv: int, hot: bool)
    requires Pump(before, rv, hot).end.Pumping?
    ensures Pump(before + rest, rv, hot)
      == Prepend(Pump(before, rv, hot).sent, Pump(rest, Pump(before, rv, hot).rv, hot))
    decreases |before|
  {
    if before == [] {
      assert before + rest == rest;
    } else {
      assert (before + rest)[1..] == before[1..] + rest;
      var next := Advance(before[0], rv);
      PumpJoin(before[1..], rest, next, hot);
    }
  }

  lemma {:induction false} WatchJoin(front: seq<Session>, back: seq<Session>, rv: int, hot: bool)
    requires WatchFrom(front, rv, hot).last.end.Again?
    ensures
      var w := WatchFrom(front, rv, hot);
      WatchFrom(front + back, rv, hot) == Before(w.last.sent, w.starts, WatchFrom(back, w.last.rv, hot))
    decreases |front|
  {
    if front == [] {
      assert front + back == back;
    } else {
      assert (front + back)[1..] == front[1..] + back;
      var p := Pump(front[0].signals, rv, hot);
      WatchJoin(front[1..], back, p.rv, hot);
      var w := WatchFrom(front[1..], p.rv, hot);
      BeforeBefore(p.sent, [rv], w.last.sent, w.starts, WatchFrom(back, w.last.rv, hot));
    }
  }

  lemma WatchCons(signals: seq<Signal>, more: seq<Session>, rv: int, hot: bool)
    ensures
      var p := Pump(signals, rv, hot);
      WatchFrom([Channel(signals)] + more, rv, hot) ==
        if p.end.Again? then Before(p.sent, [rv], WatchFrom(more, p.rv, hot)) else Watched(p, [rv])
  {
    assert ([Channel(signals)] + more)[1..] == more;
  }

  lemma PrependTwice(a: seq<Message>, b: seq<Message>, p: Pumped)
    ensures Prepend(a, Prepend(b, p)) == Prepend(a + b, p)
  {
    assert a + (b + p.sent) == a + b + p.sent;
  }

  /** A channel cut in two: the second part goes on from the version the first left. */
  lemma ChannelCut(before: seq<Signal>, rest: seq<Signal>, more: seq<Session>, rv: int, hot: bool)
    requires Pump(before, rv, hot).end.Pumping?
    ensures
      var p := Pump(before, rv, hot);
      WatchFrom([Channel(before + rest)] + more, rv, hot).last
        == Prepend(p.sent, WatchFrom([Channel(rest)] + more, p.rv, hot).last)
  {
    var p := Pump(before, rv, hot);
    var q := Pump(rest, p.rv, hot);
    PumpJoin(before, rest, rv, hot);
    WatchCons(before + rest, more, rv, hot);
    WatchCons(rest, more, p.rv, hot);
    PrependTwice(p.sent, q.sent, WatchFrom(more, q.rv, hot).last);
  }

  lemma ServesCons(log: seq<Event>, rest: seq<Signal>, more: seq<Session>, rv: int, j: nat, hot: bool)
    requires At(log, rv, j) && Delivers(log, j, rv, rest) && NoError(rest)
    requires ServesAll(log, more, Pump(rest, rv, hot).rv, hot)
    ensures ServesAll(log, [Channel(rest)] + more, rv, hot)
  {
    assert ([Channel(rest)] + more)[1..] == more;
  }

  /** Any point of any run of the loop: `before` are the signals handled so far on the
      channel that follows the sessions `past`, and their last was an event or a bookmark,
      so that the server goes on from the client's version, at position `j`.  Whatever was
      received earlier, initial bursts and Errors included, everything sent from there on,
      over the rest of the channel and any number of re-watches until an Error, is exactly
      the readable events after position `j`, in order, each once. */
  lemma NoGapNoRepeat(log: seq<Event>, past: seq<Session>, before: seq<Signal>, rest: seq<Signal>, more: seq<Session>,
                      j: nat, hot: bool)
    returns (last: nat, sent: seq<Message>)
    requires Increasing(log) && WatchFrom(past, 0, hot).last.end.Again?
    requires
      var p := Pump(before, WatchFrom(past, 0, hot).last.rv, hot);
      && p.end.Pumping? && p.rv > 0 && At(log, p.rv, j)
      && Delivers(log, j, p.rv, rest) && NoError(rest) && ServesAll(log, more, Pump(rest, p.rv, hot).rv, hot)
    ensures
      var w := WatchFrom(past, 0, hot).last;
      var run := WatchFrom(past + ([Channel(before + rest)] + more), 0, hot).last;
      && run.sent == w.sent + Pump(before, w.rv, hot).sent + sent
      && SentBetween(log, j, last, run.end, sent, hot) && At(log, run.rv, last)
  {
    var w := WatchFrom(past, 0, hot);
    var p := Pump(before, w.last.rv, hot);
    WatchJoin(past, [Channel(before + rest)] + more, 0, hot);
    ChannelCut(before, rest, more, w.last.rv, hot);
    ServesCons(log, rest, more, p.rv, j, hot);
    var tail := WatchFrom([Channel(rest)] + more, p.rv, hot).last;
    last := SessionsSendTheLog(log, [Channel(rest)] + more, p.rv, j, hot);
    sent := tail.sent;
    PrependTwice(w.last.sent, p.sent, tail);
  }

  // ---------------------------------------------------------------- what the client is told, signal by signal

  /** The message tells of the event itself: its own change, name and version, and the mapper's
      summary for a hot kind, unless the object is gone. */
  predicate Tells(m: Message, e: Event, hot: bool) {
    && m.Change? && m.change == e.change && m.ns == e.ns && m.name == e.name && m.version == e.version
    && m.summary == if hot && e.change != Deleted then e.summary else None
  }

  /** Each readable event of the log has its message, in its place, and no other event has one. */
  lemma MessageOfEach(log: seq<Event>, j: nat, i: nat, k: nat, hot: bool)
    requires j <= i < k <= |log|
    ensures
      var n, all := |Messages(log, j, i, hot)|, Messages(log, j, k, hot);
      && |Messages(log, j, i + 1, hot)| == (if log[i].readable then n + 1 else n)
      && (log[i].readable ==> n < |all| && Tells(all[n], log[i], hot))
  {
    MessagesJoin(log, j, i, k, hot);
    MessagesJoin(log, j, i, i + 1, hot);
    assert Messages(log, i + 1, i + 1, hot) == [];
  }

  /** So for what any number of channels send: the event at `i` is told as it is, unless its
      was the send that failed. */
  lemma SentAsItIs(log: seq<Event>, j: nat, i: nat, last: nat, end: End, sent: seq<Message>, hot: bool)
    requires SentBetween(log, j, last, end, sent, hot) && j <= i < last && log[i].readable
    requires end.SendFailed? ==> i < last - 1
    ensures
      var n := |Messages(log, j, i, hot)|;
      n < |sent| && Tells(sent[n], log[i], hot)
  {
    var k := if end.SendFailed? then last - 1 else last;
    SentBegins(log, j, last, end, sent, hot);
    MessageOfEach(log, j, i, k, hot);
    assert Messages(log, j, k, hot) <= sent;
  }

  /** Whatever ends it, a run begins with the messages of all events but the one whose send
      failed. */
  lemma SentBegins(log: seq<Event>, j: nat, last: nat, end: End, sent: seq<Message>, hot: bool)
    requires SentBetween(log, j, last, end, sent, hot)
    ensures Messages(log, j, if end.SendFailed? then last - 1 else last, hot) <= sent
  {
    if end.SendFailed? {
      LastMessage(log, j, last - 1, hot);
      SameFront(sent, Messages(log, j, last - 1, hot), MessageOf(log[last - 1], hot));
    }
  }

  lemma SameFront(a: seq<Message>, b: seq<Message>, m: Message)
    requires a + [m] == b + [m]
    ensures a == b
  {
    assert a == (a + [m])[..|a + [m]| - 1] && b == (b + [m])[..|b + [m]| - 1];
  }

  lemma LastMessage(log: seq<Event>, j: nat, k: nat, hot: bool)
    requires j <= k < |log| && log[k].readable
    ensures Messages(log, j, k + 1, hot) == Messages(log, j, k, hot) + [MessageOf(log[k], hot)]
  {
    MessagesJoin(log, j, k, k + 1, hot);
    assert Messages(log, k + 1, k + 1, hot) == [];
  }

  /** The signals that end a channel. */
  predicate Stops(s: Signal) {
    match s
    case Cancelled => true
    case Ping(ok) => !ok
    case Closed => true
    case Received(item, sendOk) => item.ErrorEvent? || (item.Live? && item.e.readable && !sendOk)
  }

  /** The signals that carry a version the client's is set to. */
  predicate Handled(s: Signal) {
    s.Received? && ((s.item.Live? && s.item.e.readable) || (s.item.Bookmark? && s.item.readable))
  }

  function VersionOf(s: Signal): int
    requires Handled(s)
  {
    if s.item.Live? then s.item.e.version else s.item.version
  }

  /** A channel goes on until the first signal that stops it, and that alone says what comes
      next: watch again after a close or an Error, nothing after the client has gone. */
  lemma {:induction false} PumpEnds(signals: seq<Signal>, rv: int, hot: bool, i: nat)
    requires i <= |signals| && (forall k :: 0 <= k < i ==> !Stops(signals[k]))
    requires i < |signals| ==> Stops(signals[i])
    ensures
      var p := Pump(signals, rv, hot);
      if i == |signals| then p.end == Pumping
      else
        && (signals[i].Cancelled? || signals[i].Ping? ==> p.end == Over)
        && (signals[i].Closed? ==> p.end == Again)
        && (signals[i].Received? ==>
              if signals[i].item.ErrorEvent? then p.end == Again && p.rv == 0 else p.end == SendFailed)
    decreases |signals|
  {
    if i > 0 {
      assert !Stops(signals[0]);
      PumpEnds(signals[1..], Advance(signals[0], rv), hot, i - 1);
    }
  }

  /** A channel goes through the signals before `i`, and ends at `i` unless by an Error. */
  ghost predicate GoesTo(signals: seq<Signal>, i: nat) {
    && i <= |signals| && (forall m :: 0 <= m < i ==> !Stops(signals[m]))
    && (i < |signals| ==> Stops(signals[i]) && !(signals[i].Received? && signals[i].item.ErrorEvent?))
  }

  lemma {:induction false} VersionStays(signals: seq<Signal>, rv: int, hot: bool, i: nat)
    requires GoesTo(signals, i) && forall m :: 0 <= m <= i && m < |signals| ==> !Handled(signals[m])
    ensures Pump(signals, rv, hot).rv == rv
    decreases |signals|
  {
    if i > 0 {
      assert !Handled(signals[0]) && !Stops(signals[0]);
      VersionStays(signals[1..], rv, hot, i - 1);
    }
  }

  /** The version it leaves is that of the last event or bookmark handled, the event whose send
      failed included; with none, it is the version it began with. */
  lemma {:induction false} PumpVersion(signals: seq<Signal>, rv: int, hot: bool, i: nat, k: nat)
    requires GoesTo(signals, i) && k <= i && k < |signals| && Handled(signals[k])
    requires forall m :: k < m <= i && m < |signals| ==> !Handled(signals[m])
    ensures Pump(signals, rv, hot).rv == VersionOf(signals[k])
    decreases |signals|
  {
    if k > 0 {
      assert !Stops(signals[0]);
      PumpVersion(signals[1..], Advance(signals[0], rv), hot, i - 1, k - 1);
    } else if i > 0 {
      assert !Stops(signals[0]);
      VersionStays(signals[1..], VersionOf(signals[0]), hot, i - 1);
    }
  }

  /** Every readable event received before that is told as it is, in its place, in an initial
      burst too; nothing else is. */
  lemma PumpTells(signals: seq<Signal>, rv: int, hot: bool, k: nat)
    requires k < |signals| && (forall m :: 0 <= m <= k ==> !Stops(signals[m]))
    ensures
      var n, sent := |Pump(signals[..k], rv, hot).sent|, Pump(signals, rv, hot).sent;
      var live := signals[k].Received? && signals[k].item.Live? && signals[k].item.e.readable;
      && |Pump(signals[..k + 1], rv, hot).sent| == (if live then n + 1 else n)
      && (live ==> n < |sent| && Tells(sent[n], signals[k].item.e, hot))
  {
    var before := Pump(signals[..k], rv, hot);
    PumpEnds(signals[..k], rv, hot, k);
    assert signals == signals[..k] + signals[k..] && signals[..k + 1] == signals[..k] + [signals[k]];
    PumpJoin(signals[..k], signals[k..], rv, hot);
    PumpJoin(signals[..k], [signals[k]], rv, hot);
    assert signals[k..][0] == signals[k] && [signals[k]][1..] == [];
    assert !Stops(signals[k]);
  }

  /** The loop: after sessions that ended in a re-watch the next one starts from the version
      they left.  A refused watch is told with its reason and ends the loop, and so does any
      other end; otherwise it goes on. */
  lemma NextSession(front: seq<Session>, x: Session, back: seq<Session>, hot: bool)
    requires WatchFrom(front, 0, hot).last.end.Again?
    ensures
      var w, all := WatchFrom(front, 0, hot), WatchFrom(front + ([x] + back), 0, hot);
      && |all.starts| > |w.starts| && all.starts[|w.starts|] == w.last.rv
      && (x.Refused? ==> all.last == Pumped(Rejected, w.last.rv, w.last.sent + [ErrorFrame(x.notInstalled)]))
      && (x.Channel? ==>
            var p := Pump(x.signals, w.last.rv, hot);
            if p.end.Again? then
              all.last == Prepend(w.last.sent + p.sent, WatchFrom(back, p.rv, hot).last)
            else all.last == Pumped(p.end, p.rv, w.last.sent + p.sent) && |all.starts| == |w.starts| + 1)
  {
    var w := WatchFrom(front, 0, hot);
    WatchJoin(front, [x] + back, 0, hot);
    assert ([x] + back)[1..] == back && ([x] + back)[0] == x;
    if x.Channel? {
      var p := Pump(x.signals, w.last.rv, hot);
      WatchCons(x.signals, back, w.last.rv, hot);
      PrependTwice(w.last.sent, p.sent, WatchFrom(back, p.rv, hot).last);
    }
  }

  // ---------------------------------------------------------------- errors

  /** An Error ends the run so far and starts another from the empty version: what was sent
      up to it is what the run cut before it sends, and what is sent after it is a run of
      its own, of which the same can be said from any point on. */
  lemma ErrorSplitsTheRun(past: seq<Session>, before: seq<Signal>, sendOk: bool, after: seq<Signal>, more: seq<Session>,
                          rv: int, hot: bool)
    requires WatchFrom(past, rv, hot).last.end.Again?
    requires Pump(before, WatchFrom(past, rv, hot).last.rv, hot).end.Pumping?
    ensures
      var cut := WatchFrom(past + [Channel(before)], rv, hot);
      WatchFrom(past + ([Channel(before + ([Received(ErrorEvent, sendOk)] + after))] + more), rv, hot)
        == Before(cut.last.sent, cut.starts, WatchFrom(more, 0, hot))
  {
    var w := WatchFrom(past, rv, hot);
    var p := Pump(before, w.last.rv, hot);
    var error := [Received(ErrorEvent, sendOk)] + after;
    PumpJoin(before, error, w.last.rv, hot);
    assert Pump(error, p.rv, hot) == Pumped(Again, 0, []) && p.sent + [] == p.sent;
    WatchCons(before + error, more, w.last.rv, hot);
    WatchJoin(past, [Channel(before + error)] + more, rv, hot);
    WatchJoin(past, [Channel(before)], rv, hot);
    BeforeBefore(w.last.sent, w.starts, p.sent, [w.last.rv], WatchFrom(more, 0, hot));
  }

  /** What a client is sent around an Error: the readable events from its version up to the
      Error, whatever the burst of the next watch brings, and the readable events from the
      version that leaves.  The log's events between the two positions are sent as no event
      of their own, deletes among them. */
  lemma SentAroundAnError(log: seq<Event>, past: seq<Session>, before: seq<Signal>, rest: seq<Signal>,
                          sendOk: bool, after: seq<Signal>, j: nat,
                          burst: seq<Signal>, rest2: seq<Signal>, more: seq<Session>, j2: nat, hot: bool)
    returns (k: nat, last: nat, tail: seq<Message>)
    requires Increasing(log) && WatchFrom(past, 0, hot).last.end.Again?
    requires
      var p := Pump(before, WatchFrom(past, 0, hot).last.rv, hot);
      && p.end.Pumping? && p.rv > 0 && At(log, p.rv, j) && Delivers(log, j, p.rv, rest) && NoError(rest)
      && Pump(rest, p.rv, hot).end.Pumping?
    requires
      var q := Pump(burst, 0, hot);
      && q.end.Pumping? && q.rv > 0 && At(log, q.rv, j2) && Delivers(log, j2, q.rv, rest2) && NoError(rest2)
      && ServesAll(log, more, Pump(rest2, q.rv, hot).rv, hot)
    ensures j <= k <= |log|
    ensures
      var w := WatchFrom(past, 0, hot).last;
      var failing := Channel((before + rest) + ([Received(ErrorEvent, sendOk)] + after));
      var run := WatchFrom(past + ([failing] + ([Channel(burst + rest2)] + more)), 0, hot).last;
      && run.sent == w.sent + Pump(before, w.rv, hot).sent + Messages(log, j, k, hot)
        + (Pump(burst, 0, hot).sent + tail)
      && SentBetween(log, j2, last, run.end, tail, hot)
  {
    var w := WatchFrom(past, 0, hot).last;
    var p := Pump(before, w.rv, hot);
    var first: seq<Message>;
    k, first := NoGapNoRepeat(log, past, before, rest, [], j, hot);
    PumpJoin(before, rest, w.rv, hot);
    assert [Channel(before + rest)] + [] == [Channel(before + rest)];
    WatchJoin(past, [Channel(before + rest)], 0, hot);
    WatchCons(before + rest, [], w.rv, hot);
    ErrorSplitsTheRun(past, before + rest, sendOk, after, [Channel(burst + rest2)] + more, 0, hot);
    last, tail := NoGapNoRepeat(log, [], burst, rest2, more, j2, hot);
    assert [] + ([Channel(burst + rest2)] + more) == [Channel(burst + rest2)] + more;
    assert [] + Pump(burst, 0, hot).sent + tail == Pump(burst, 0, hot).sent + tail;
  }

  /** So the watch after an Error starts from the empty version. */
  lemma ErrorStartsOver(before: seq<Signal>, sendOk: bool, after: seq<Signal>, more: seq<Session>, rv: int, hot: bool)
    requires Pump(before, rv, hot).end.Pumping? && more != []
    ensures
      var w := WatchFrom([Channel(before + ([Received(ErrorEvent, sendOk)] + after))] + more, rv, hot);
      |w.starts| >= 2 && w.starts[1] == 0
  {
    var sessions := [Channel(before + ([Received(ErrorEvent, sendOk)] + after))] + more;
    ErrorSplitsTheRun([], before, sendOk, after, more, rv, hot);
    assert [] + sessions == sessions && [] + [Channel(before)] == [Channel(before)];
    assert |WatchFrom([Channel(before)], rv, hot).starts| == 1;
    assert WatchFrom(more, 0, hot).starts[0] == 0;
  }

  function Advance(s: Signal, rv: int): int {
    match s
    case Received(Bookmark(v, readable), _) => if readable then v else rv
    case Received(Live(e), _) => if e.readable then e.version else rv
    case _ => rv
  }

  /** A session starts from the empty version only at the very start, or after a channel
      that ended there, that is in an Error, when versions are positive. */
  lemma {:induction false} OnlyErrorResets(signals: seq<Signal>, rv: int, hot: bool)
    requires rv > 0 && NoError(signals)
    requires forall i :: 0 <= i < |signals| && signals[i].Received? ==>
      (signals[i].item.Live? ==> signals[i].item.e.version > 0)
        && (signals[i].item.Bookmark? ==> signals[i].item.version > 0)
    ensures Pump(signals, rv, hot).rv > 0
    decreases |signals|
  {
    if signals != [] {
      assert signals[0].Received? ==> !signals[0].item.ErrorEvent?;
      OnlyErrorResets(signals[1..], Advance(signals[0], rv), hot);
    }
  }
}
