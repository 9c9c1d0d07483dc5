/** The TCP link (net.go): lazy dialling, one reader per connection, and who may close or
    forget a connection. Threads interleave between steps; a dial keeps the lock. */
module NetLink {

  const SPACING := 500 // milliseconds between dial attempts

  /** A reader's progress after its connection was made. */
  datatype Reader =
    | Reading
    | Failed  // Read returned an error; the lock not yet taken
    | Closing // conn cleared if it was this one; Close still to come
    | Done

  datatype Conn = NoConn | Current(id: nat)
  datatype Lock = Free | Dialing(forWrite: bool)

  /** `conn` and `lastDial` are the object's fields; the rest is the environment: the clock,
      the connections open on this side, their readers, and the times of all dial attempts. */
  datatype Link = Link(
    conn: Conn, lastDial: int, dialled: bool, lock: Lock,
    now: int, open: set<nat>, readers: seq<Reader>, dials: seq<int>)

  datatype Move =
    | Ensure(forWrite: bool)          // ensure, up to the dial
    | EndDial(ok: bool, writeOk: bool) // the dial returns, and the write if there was one
    | Write(ok: bool)                 // a write on the current connection
    | Close                           // the sink is closed
    | ReadError(id: nat)
    | Forget(id: nat)                 // the reader's critical section
    | ReaderClose(id: nat)
    | Pass(ms: nat)                   // time goes by

  predicate Enabled(s: Link, m: Move) {
    match m
    case Ensure(_) => s.lock == Free
    case EndDial(_, _) => s.lock.Dialing?
    case Write(_) => s.lock == Free && s.conn.Current?
    case Close => s.lock == Free
    case ReadError(id) => id < |s.readers| && s.readers[id] == Reading
    case Forget(id) => id < |s.readers| && s.readers[id] == Failed && s.lock == Free
    case ReaderClose(id) => id < |s.readers| && s.readers[id] == Closing
    case Pass(_) => true
  }

  /** Closing and forgetting the current connection. */
  function Drop(s: Link): Link {
    match s.conn
    case NoConn => s
    case Current(id) => s.(conn := NoConn, open := s.open - {id})
  }

  function StartDial(s: Link, forWrite: bool): Link {
    if s.conn.Current? then s
    else if s.dialled && s.now - s.lastDial < SPACING then s
    else s.(lastDial := s.now, dialled := true, dials := s.dials + [s.now], lock := Dialing(forWrite))
  }

  function FinishDial(s: Link, ok: bool, writeOk: bool): Link
    requires s.lock.Dialing?
  {
    var s' := s.(lock := Free);
    if !ok then s'
    else
      var id := |s.readers|;
      var up := s'.(conn := Current(id), open := s.open + {id}, readers := s.readers + [Reading]);
      if s.lock.forWrite && !writeOk then Drop(up) else up
  }

  function ForgetConn(s: Link, id: nat): Link {
    if s.conn == Current(id) then s.(conn := NoConn) else s
  }

  function Next(s: Link, m: Move): Link
    requires Enabled(s, m)
  {
    match m
    case Ensure(forWrite) => StartDial(s, forWrite)
    case EndDial(ok, writeOk) => FinishDial(s, ok, writeOk)
    case Write(ok) => if ok then s else Drop(s)
    case Close => Drop(s)
    case ReadError(id) => s.(readers := s.readers[id := Failed])
    case Forget(id) => ForgetConn(s, id).(readers := s.readers[id := Closing])
    case ReaderClose(id) => s.(open := s.open - {id}, readers := s.readers[id := Done])
    case Pass(ms) => s.(now := s.now + ms)
  }

  const START := Link(NoConn, 0, false, Free, 0, {}, [], [])

  predicate Feasible(s: Link, ms: seq<Move>)
    decreases |ms|
  {
    ms == [] || (Enabled(s, ms[0]) && Feasible(Next(s, ms[0]), ms[1..]))
  }

  function Run(s: Link, ms: seq<Move>): Link
    requires Feasible(s, ms)
    decreases |ms|
  {
    if ms == [] then s else Run(Next(s, ms[0]), ms[1..])
  }

  // ---- The invariant ----

  /** The current connection is open and its reader has not touched it; every other open
      connection is about to be closed by its own reader; a dial runs only when there is no
      connection; dial attempts are SPACING apart. */
  predicate Inv(s: Link) {
    && (s.conn.Current? ==> s.conn.id in s.open && s.conn.id < |s.readers| && s.readers[s.conn.id] in {Reading, Failed})
    && (forall id :: id in s.open ==> id < |s.readers| && (s.conn == Current(id) || s.readers[id] == Closing))
    && (s.lock.Dialing? ==> s.conn == NoConn)
    && (s.dialled <==> s.dials != [])
    && (s.dials != [] ==> s.lastDial == s.dials[|s.dials| - 1] <= s.now)
    && (forall i :: 0 <= i < |s.dials| - 1 ==> s.dials[i + 1] - s.dials[i] >= SPACING)
  }

  lemma {:induction false} NextKeeps(s: Link, m: Move)
    requires Inv(s) && Enabled(s, m)
    ensures Inv(Next(s, m))
  {
    match m
    case Ensure(forWrite) => DialStarts(s, forWrite);
    case EndDial(ok, writeOk) => DialEnds(s, ok, writeOk);
    case _ => OthersKeep(s, m);
  }

  lemma {:induction false} DialStarts(s: Link, forWrite: bool)
    requires Inv(s) && s.lock == Free
    ensures Inv(StartDial(s, forWrite))
  {
  }

  lemma {:induction false} DialEnds(s: Link, ok: bool, writeOk: bool)
    requires Inv(s) && s.lock.Dialing?
    ensures Inv(FinishDial(s, ok, writeOk))
  {
    if ok {
      var id := |s.readers|;
      var up := s.(lock := Free, conn := Current(id), open := s.open + {id}, readers := s.readers + [Reading]);
      forall other | other in up.open
        ensures other < |up.readers| && (up.conn == Current(other) || up.readers[other] == Closing)
      {
        if other != id { assert other in s.open; }
      }
      assert Inv(up);
      assert up.open - {id} == s.open - {id};
    }
  }

  lemma {:induction false} OthersKeep(s: Link, m: Move)
    requires Inv(s) && Enabled(s, m) && !m.Ensure? && !m.EndDial?
    ensures Inv(Next(s, m))
  {
    var s' := Next(s, m);
    forall id | id in s'.open ensures id < |s'.readers| && (s'.conn == Current(id) || s'.readers[id] == Closing) {
      assert id in s.open;
    }
  }

  lemma {:induction false} InvAlways(s: Link, ms: seq<Move>)
    requires Inv(s) && Feasible(s, ms)
    ensures Inv(Run(s, ms))
    decreases |ms|
  {
    if ms != [] {
      NextKeeps(s, ms[0]);
      InvAlways(Next(s, ms[0]), ms[1..]);
    }
  }

  /** Over every interleaving: the promises of Inv, and nothing leaks once every reader has
      finished and the link is down. */
  lemma {:induction false} LinkSafety(ms: seq<Move>)
    requires Feasible(START, ms)
    ensures var s := Run(START, ms);
            && Inv(s)
            && (s.conn == NoConn && (forall id :: 0 <= id < |s.readers| ==> s.readers[id] == Done) ==> s.open == {})
  {
    InvAlways(START, ms);
    var s := Run(START, ms);
    if s.conn == NoConn && (forall id :: 0 <= id < |s.readers| ==> s.readers[id] == Done) && s.open != {} {
      var id :| id in s.open;
      assert false;
    }
  }

  /** The moves that may end the connection `id`: a failed write on it, closing the sink, an
      error of its own reader. */
  predicate Ends(m: Move, id: nat) {
    m == Write(false) || m == Close || m == ReadError(id)
  }

  /** A connection stays current until one of those happens to it. In particular no reader
      of an older connection ever clears it, however late that reader is. */
  lemma {:induction false} StaleReadersAreHarmless(s: Link, ms: seq<Move>, id: nat)
    requires Inv(s) && Feasible(s, ms)
    requires s.conn == Current(id) && s.readers[id] == Reading
    requires forall i :: 0 <= i < |ms| ==> !Ends(ms[i], id)
    ensures var s' := Run(s, ms);
            s'.conn == Current(id) && id < |s'.readers| && s'.readers[id] == Reading && s'.dials == s.dials
    decreases |ms|
  {
    if ms != [] {
      NextKeeps(s, ms[0]);
      assert !Ends(ms[0], id);
      StaleReadersAreHarmless(Next(s, ms[0]), ms[1..], id);
    }
  }

  /** A dial begins exactly when a connection is asked for, there is none, and SPACING has
      passed since the dial before; no other dial is then under way. */
  lemma {:induction false} DialsExactly(s: Link, m: Move)
    requires Inv(s) && Enabled(s, m)
    ensures Next(s, m).dials != s.dials <==>
              m.Ensure? && s.conn == NoConn && (s.dials != [] ==> s.now - s.dials[|s.dials| - 1] >= SPACING)
    ensures Next(s, m).dials != s.dials ==> s.lock == Free && Next(s, m).dials == s.dials + [s.now]
  {
    if m.Ensure? && Next(s, m) != s {
      assert (s.dials + [s.now])[|s.dials|] == s.now;
    }
  }

  /** What ends a connection: a failed write or Close closes and forgets it at once; its own
      reader forgets it first and then closes it. */
  lemma {:induction false} EndedConnections(s: Link, m: Move, id: nat)
    requires Inv(s) && Enabled(s, m) && s.conn == Current(id)
    ensures m in {Write(false), Close} ==> Next(s, m).conn == NoConn && Next(s, m).open == s.open - {id}
    ensures m == Forget(id) ==>
              && Next(s, m).conn == NoConn && Next(s, m).open == s.open
              && Enabled(Next(s, m), ReaderClose(id))
              && Next(Next(s, m), ReaderClose(id)).open == s.open - {id}
    ensures m !in {Write(false), Close, Forget(id)} ==> Next(s, m).conn == s.conn && id in Next(s, m).open
  {
  }

  /** What a dial leads to. The new connection is current and open, unless the write it was
      made for fails at once: then it is closed and forgotten again. */
  lemma {:induction false} DialOutcome(s: Link, ok: bool, writeOk: bool)
    requires Inv(s) && s.lock.Dialing?
    ensures var s', id := Next(s, EndDial(ok, writeOk)), |s.readers|;
            && s'.lock == Free
            && (s'.conn == Current(id) <==> ok && (s.lock.forWrite ==> writeOk))
            && (s'.conn == NoConn <==> !ok || (s.lock.forWrite && !writeOk))
            && (id in s'.open <==> s'.conn == Current(id))
            && s'.open - {id} == s.open
            && s'.readers == s.readers + (if ok then [Reading] else [])
  {
  }

  /** How far a reader has come. */
  function Progress(r: Reader): nat {
    match r
    case Reading => 0
    case Failed => 1
    case Closing => 2
    case Done => 3
  }

  /** Readers go through their three steps once each and in order, each by its own moves; only
      a dial that succeeds adds one, and only time passing moves the clock. */
  lemma {:induction false} ReadersProgress(s: Link, m: Move, id: nat)
    requires Enabled(s, m) && id < |s.readers|
    ensures var s' := Next(s, m);
            && |s'.readers| == |s.readers| + (if m.EndDial? && m.ok then 1 else 0)
            && Progress(s'.readers[id])
               == Progress(s.readers[id]) + (if m in {ReadError(id), Forget(id), ReaderClose(id)} then 1 else 0)
            && s'.now == s.now + (if m.Pass? then m.ms else 0)
  {
  }

  /** A link that is down is dialled again: half a second later the next attempt goes out. */
  lemma {:induction false} DialsAgain(s: Link, ms: nat, forWrite: bool)
    requires Inv(s) && s.conn == NoConn && s.lock == Free && ms >= SPACING
    ensures var s' := Next(Next(s, Pass(ms)), Ensure(forWrite));
            s'.lock == Dialing(forWrite) && s'.dials == s.dials + [s.now + ms]
  {
    NextKeeps(s, Pass(ms));
    DialsExactly(Next(s, Pass(ms)), Ensure(forWrite));
  }

  /** Connections come one after the other: what is current later was made later. */
  lemma {:induction false} ConnectionsInOrder(s: Link, ms: seq<Move>)
    requires Inv(s) && Feasible(s, ms)
    ensures var s' := Run(s, ms);
            && |s.readers| <= |s'.readers|
            && (s'.conn.Current? ==> s'.conn == s.conn || s'.conn.id >= |s.readers|)
    decreases |ms|
  {
    if ms != [] {
      var s1 := Next(s, ms[0]);
      NextKeeps(s, ms[0]);
      OneConnection(s, ms[0]);
      ConnectionsInOrder(s1, ms[1..]);
    }
  }

  lemma {:induction false} OneConnection(s: Link, m: Move)
    requires Inv(s) && Enabled(s, m)
    ensures var s' := Next(s, m);
            && |s.readers| <= |s'.readers|
            && (s'.conn.Current? ==> s'.conn == s.conn || s'.conn.id >= |s.readers|)
  {
  }

  // ---- The object ----

  /** netSink: its two fields, with the environment they live in. Each method is one
      critical section, run without interruption. */
  class NetSink {
    var conn: Conn
    var lastDial: int
    var dialled: bool
    var now: int
    var open: set<nat>
    var readers: seq<Reader>
    ghost var dials: seq<int>

    constructor ()
      ensures Abs() == START
    {
      conn, lastDial, dialled, now, open, readers, dials := NoConn, 0, false, 0, {}, [], [];
    }

    ghost function Abs(): Link
      reads this
    {
      Link(conn, lastDial, dialled, Free, now, open, readers, dials)
    }

    /** The dial takes `took` milliseconds and succeeds or not. */
    method EnsureConn(took: nat, dialOk: bool)
      modifies this
      ensures var s := StartDial(old(Abs()), false);
              Abs() == if s.lock == Free then s else FinishDial(Next(s, Pass(took)), dialOk, true)
    {
      if conn.Current? { return; }
      if dialled && now - lastDial < SPACING { return; }
      lastDial, dialled := now, true;
      dials := dials + [now];
      now := now + took;
      if !dialOk { return; }
      conn, open := Current(|readers|), open + {|readers|};
      readers := readers + [Reading];
    }

    method WriteFrame(took: nat, dialOk: bool, writeOk: bool) returns (sent: bool)
      modifies this
      ensures var s := StartDial(old(Abs()), true);
              && (old(conn).Current? ==> Abs() == Next(old(Abs()), Write(writeOk)) && sent == writeOk)
              && (!old(conn).Current? && s.lock == Free ==> Abs() == s && !sent)
              && (!old(conn).Current? && s.lock != Free ==>
                    Abs() == FinishDial(Next(s, Pass(took)), dialOk, writeOk) && sent == (dialOk && writeOk))
    {
      EnsureConn(took, dialOk);
      if conn == NoConn { return false; }
      if !writeOk {
        open := open - {conn.id};
        conn := NoConn;
        return false;
      }
      return true;
    }

    /** The critical section of readUntilClosed. */
    method ReaderFailed(id: nat)
      requires id < |readers|
      modifies this
      ensures Abs() == ForgetConn(old(Abs()), id).(readers := old(readers)[id := Closing])
    {
      if conn == Current(id) { conn := NoConn; }
      readers := readers[id := Closing];
    }

    method CloseSink()
      modifies this
      ensures Abs() == Drop(old(Abs()))
    {
      if conn.Current? {
        open := open - {conn.id};
        conn := NoConn;
      }
    }
  }
}
