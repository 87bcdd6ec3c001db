/** A byte stream read out of WebSocket messages: the exec terminal's input. */
module ExecStream {

  newtype Byte = x: int | 0 <= x < 256

  datatype Err = NoErr | Eof | Failed

  /** The bytes of the first `k` messages, in arrival order, and of the others. */
  function UpTo(messages: seq<seq<Byte>>, k: nat): seq<Byte>
    requires k <= |messages|
  {
    if k == 0 then [] else UpTo(messages, k - 1) + messages[k - 1]
  }

  function From(messages: seq<seq<Byte>>, k: nat): seq<Byte>
    requires k <= |messages|
    decreases |messages| - k
  {
    if k == |messages| then [] else messages[k] + From(messages, k + 1)
  }

  lemma {:induction false} UpToAndFrom(messages: seq<seq<Byte>>, k: nat)
    requires k <= |messages|
    ensures UpTo(messages, k) + From(messages, k) == From(messages, 0)
  {
    if k > 0 {
      UpToAndFrom(messages, k - 1);
      var before, m, rest := UpTo(messages, k - 1), messages[k - 1], From(messages, k);
      Assoc(before, m, rest);
    }
  }

  lemma Assoc(a: seq<Byte>, b: seq<Byte>, c: seq<Byte>)
    ensures (a + b) + c == a + (b + c)
  {}

  /** The reader of one message.  It hands out any non-empty piece while bytes are left and
      reports the end on its own; a `hasty` one may report it with the last bytes already.  */
  class MessageReader {
    const hasty: bool
    var rest: seq<Byte>

    constructor (message: seq<Byte>, hasty: bool)
      ensures rest == message && this.hasty == hasty
    {
      rest, this.hasty := message, hasty;
    }

    /** `works`: the connection does not break during the call. */
    method Read(p: array<Byte>, works: bool) returns (n: nat, err: Err)
      modifies this, p
      ensures n <= p.Length && old(rest) == p[..n] + rest && p[n..] == old(p[..])[n..]
      ensures err == Failed <==> !works
      ensures works && old(rest) == [] ==> err == Eof
      ensures err == Eof ==> rest == [] && (old(rest) == [] || hasty)
      ensures works && old(rest) != [] && p.Length > 0 ==> n > 0
    {
      var max := if |rest| < p.Length then |rest| else p.Length;
      n :| 0 <= n <= max && (works && max > 0 ==> n > 0);
      for i := 0 to n
        invariant rest == old(rest) && p[..i] == rest[..i]
        invariant p[i..] == old(p[..])[i..]
      {
        p[i] := rest[i];
        assert p[i + 1..] == old(p[..])[i..][1..];
      }
      var was := rest;
      rest := rest[n..];
      var early: bool := *;
      err := if !works then Failed else if was == [] || (rest == [] && hasty && early) then Eof else NoErr;
    }
  }

  class StreamAdapter {
    /** Every message the connection delivers, and how many of them were opened. */
    const messages: seq<seq<Byte>>
    const hasty: bool
    var next: nat
    /** Of the message being read. */
    var reader: MessageReader?

    constructor (messages: seq<seq<Byte>>, hasty: bool)
      ensures Valid() && next == 0 && reader == null && this.messages == messages && this.hasty == hasty
    {
      this.messages, this.hasty, next, reader := messages, hasty, 0, null;
    }

    ghost predicate Valid()
      reads this, reader
    {
      next <= |messages| && (reader != null ==> reader.hasty == hasty)
    }

    ghost function Leftover(): seq<Byte>
      reads this, reader
    {
      if reader == null then [] else reader.rest
    }

    /** Every byte that was sent and not returned. */
    ghost function Unread(): seq<Byte>
      requires Valid()
      reads this, reader
    {
      Leftover() + From(messages, next)
    }

    /** Whatever the outcome, the bytes returned are the next ones.  An end of file is passed
        on exactly when a message just opened ends in its first read; for readers that are
        not hasty that is an empty message, and any other read makes progress. */
    method Read(p: array<Byte>, works: bool) returns (n: nat, err: Err)
      requires Valid()
      modifies this, reader, p
      ensures Valid() && (reader == old(reader) || reader == null || fresh(reader))
      ensures n <= p.Length && old(Unread()) == p[..n] + Unread() && p[n..] == old(p[..])[n..]
      ensures next == old(next) || (old(Leftover()) == [] && old(next) < |messages| && next == old(next) + 1)
      ensures err == Failed <==> !works || (next == old(next) == |messages| && old(Leftover()) == [] && n == 0)
      ensures err == Eof ==> next == old(next) + 1 && p[..n] == messages[old(next)] && Leftover() == []
      ensures !hasty && works ==>
        (err == Eof <==> old(Leftover()) == [] && old(next) < |messages| && messages[old(next)] == [])
      ensures err == NoErr && p.Length > 0 ==> n > 0
    {
      if reader != null {
        n, err := reader.Read(p, works);
        Assoc(p[..n], reader.rest, From(messages, next));
        if err == Eof {
          reader := null;
          if n > 0 { return n, NoErr; }
          assert p[..] == p[n..] == old(p[..])[n..] == old(p[..]);
          assert old(reader.rest) == [];
        } else {
          return n, err;
        }
      }
      assert old(Leftover()) == [] && p[..] == old(p[..]);
      if !works || next == |messages| { return 0, Failed; }
      reader := new MessageReader(messages[next], hasty);
      next := next + 1;
      n, err := reader.Read(p, works);
      Assoc(p[..n], reader.rest, From(messages, next));
    }
  }

  // ---------------------------------------------------------------- many reads

  ghost predicate NoEmpty(messages: seq<seq<Byte>>) {
    forall k :: 0 <= k < |messages| ==> messages[k] != []
  }

  /** Any reads of any sizes, broken ones and ends of file included: the bytes returned are
      a prefix of what was sent, and what is left is still to come.  Without empty messages
      there is no end of file between messages. */
  method ReadMany(a: StreamAdapter, sizes: seq<nat>, works: seq<bool>) returns (got: seq<Byte>, errs: seq<Err>)
    requires a.Valid() && |works| == |sizes|
    modifies a, a.reader
    ensures a.Valid() && |errs| == |sizes|
    ensures old(a.Unread()) == got + a.Unread()
    ensures !a.hasty && NoEmpty(a.messages) ==> Eof !in errs
  {
    got, errs := [], [];
    for i := 0 to |sizes|
      invariant a.Valid() && (a.reader == old(a.reader) || a.reader == null || fresh(a.reader))
      invariant |errs| == i && old(a.Unread()) == got + a.Unread()
      invariant !a.hasty && NoEmpty(a.messages) ==> Eof !in errs
    {
      var p := new Byte[sizes[i]](_ => 0);
      ghost var unread := a.Unread();
      var n, err := a.Read(p, works[i]);
      Assoc(got, p[..n], a.Unread());
      got, errs := got + p[..n], errs + [err];
    }
  }

  /** The position of the first empty message from `k` on. */
  function FirstEmpty(messages: seq<seq<Byte>>, k: nat): (e: nat)
    requires k <= |messages|
    ensures k <= e <= |messages| && (e < |messages| ==> messages[e] == [])
    ensures forall i :: k <= i < e ==> messages[i] != []
    decreases |messages| - k
  {
    if k == |messages| || messages[k] == [] then k else FirstEmpty(messages, k + 1)
  }

  lemma SameSuffix(a: seq<Byte>, b: seq<Byte>, s: seq<Byte>)
    requires a + s == b + s
    ensures a == b
  {
    assert |a + s| == |b + s|;
    assert (a + s)[..|a|] == a && (b + s)[..|b|] == b;
  }

  /** What one read does to the bytes returned so far. */
  lemma OneRead(messages: seq<seq<Byte>>, k: nat, next: nat, got: seq<Byte>, left: seq<Byte>, bytes: seq<Byte>,
                leftNext: seq<Byte>)
    requires k <= next <= k + 1 && next <= |messages|
    requires got + left == UpTo(messages, k)
    requires left + From(messages, k) == bytes + (leftNext + From(messages, next))
    ensures (got + bytes) + leftNext == UpTo(messages, next)
  {
    var s := From(messages, next);
    Assoc(bytes, leftNext, s);
    if next == k + 1 {
      var m := messages[k];
      Assoc(left, m, s);
      SameSuffix(left + m, bytes + leftNext, s);
      Assoc(got, left, m);
    } else {
      SameSuffix(left, bytes + leftNext, s);
    }
    Assoc(got, bytes, leftNext);
  }

  /** A consumer that reads until the first error, as the remote command's input does: it
      gets exactly the messages before the first empty one, which it takes for the end of
      the input. */
  method CopyUntilError(a: StreamAdapter, size: nat) returns (got: seq<Byte>, err: Err)
    requires a.Valid() && !a.hasty && a.reader == null && a.next == 0 && size > 0
    modifies a
    ensures got == UpTo(a.messages, FirstEmpty(a.messages, 0))
    ensures err == if FirstEmpty(a.messages, 0) < |a.messages| then Eof else Failed
  {
    got, err := [], NoErr;
    ghost var e := FirstEmpty(a.messages, 0);
    while err == NoErr
      invariant a.Valid() && (a.reader == null || fresh(a.reader))
      invariant got + a.Leftover() == UpTo(a.messages, a.next)
      invariant err == NoErr ==> FirstEmpty(a.messages, a.next) == e
      invariant err == Eof ==> a.Leftover() == [] && a.next == e + 1
      invariant err == Failed ==> a.Leftover() == [] && a.next == e == |a.messages|
      decreases err == NoErr, |a.Unread()|
    {
      var p := new Byte[size](_ => 0);
      ghost var k, left, unread := a.next, a.Leftover(), a.Unread();
      var n: nat;
      n, err := a.Read(p, true);
      assert |unread| == n + |a.Unread()|;
      OneRead(a.messages, k, a.next, got, left, p[..n], a.Leftover());
      got := got + p[..n];
    }
    assert got + a.Leftover() == got;
  }

  /** So it gets everything exactly when no message before the last byte is empty. */
  lemma CopyIsCompleteIff(messages: seq<seq<Byte>>)
    ensures
      var e := FirstEmpty(messages, 0);
      UpTo(messages, e) == From(messages, 0) <==> From(messages, e) == []
  {
    var e := FirstEmpty(messages, 0);
    UpToAndFrom(messages, e);
    if UpTo(messages, e) == From(messages, 0) {
      SameSuffix([], From(messages, e), []);
    } else {
      assert UpTo(messages, e) + [] == UpTo(messages, e);
    }
  }
}
