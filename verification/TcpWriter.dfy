/** The resumable writer of the socket example: it pushes a fixed buffer round and round into a
    socket until the socket refuses or everything has been written. */
module TcpWriter {
  import opened Common

  const WRITE_SIZE: nat := 1040
  const TOTAL_TX_BYTES: nat := 20000

  ghost function ByteAt(data: seq<bv8>, i: nat): bv8
    requires data != []
  {
    data[i % |data|]
  }

  /** The first `n` bytes of `data` repeated for ever. */
  ghost function Repeated(data: seq<bv8>, n: nat): (r: seq<bv8>)
    requires data != []
    ensures |r| == n && forall i :: 0 <= i < n ==> r[i] == ByteAt(data, i)
  {
    seq(n, i requires 0 <= i => ByteAt(data, i))
  }

  lemma OffsetInPeriod(n: nat, j: nat, period: nat)
    requires period > 0 && n % period + j < period
    ensures (n + j) % period == n % period + j
  {
    var q := n / period;
    assert n == q * period + n % period;
    RemainderUnique(n + j, q, n % period + j, period);
  }

  lemma ByteAtOffset(data: seq<bv8>, n: nat, j: nat)
    requires data != [] && n % |data| + j < |data|
    ensures ByteAt(data, n + j) == data[n % |data| + j]
  {
    OffsetInPeriod(n, j, |data|);
  }

  /** A chunk taken at offset n mod |data| that stays inside the buffer continues the repetition. */
  lemma ChunkContinues(data: seq<bv8>, n: nat, offset: nat, k: nat)
    requires data != [] && offset == n % |data| && offset + k <= |data|
    ensures Repeated(data, n) + data[offset..offset + k] == Repeated(data, n + k)
  {
    hide ByteAt;
    var whole, chunk := Repeated(data, n + k), data[offset..offset + k];
    forall i | 0 <= i < n + k ensures (Repeated(data, n) + chunk)[i] == whole[i] {
      if i >= n { ByteAtOffset(data, n, i - n); }
    }
  }

  /** The same for the part of a longer chunk that was taken. */
  lemma StreamContinues(data: seq<bv8>, n: nat, chunk: seq<bv8>, sent: int)
    requires data != [] && n % |data| + |chunk| <= |data| && 0 < sent <= |chunk|
    requires chunk == data[n % |data|..n % |data| + |chunk|]
    ensures Repeated(data, n) + chunk[..sent] == Repeated(data, n + sent)
  {
    hide Repeated;
    assert chunk[..sent] == data[n % |data|..n % |data| + sent];
    ChunkContinues(data, n, n % |data|, sent);
  }

  // ---------------------------------------------------------------------------
  // What a run of the loop comes to
  // ---------------------------------------------------------------------------

  /** How the socket answers one Send: the amount it takes and the space it reports afterwards. */
  datatype Response = Response(amountSent: int, space: nat)

  type Script = nat -> Response

  /** Bytes accepted so far, space reported by the socket, and number of Sends so far. */
  datatype State = State(bytes: nat, space: nat, calls: nat)

  function Min(x: nat, y: nat): nat {
    if x < y then x else y
  }

  ghost function ToWrite(st: State): nat {
    Min(Min(WRITE_SIZE - st.bytes % WRITE_SIZE, if st.bytes < TOTAL_TX_BYTES then TOTAL_TX_BYTES - st.bytes else 0), st.space)
  }

  /** What is offered to Send is as much as fits: to the end of the buffer, of the data and of the space. */
  lemma OfferIsMaximal(st: State, n: nat)
    requires HasWork(st)
    ensures var k := ToWrite(st); k > 0 && st.bytes % WRITE_SIZE + k <= WRITE_SIZE && st.bytes + k <= TOTAL_TX_BYTES && k <= st.space
    ensures n > ToWrite(st) ==> st.bytes % WRITE_SIZE + n > WRITE_SIZE || st.bytes + n > TOTAL_TX_BYTES || n > st.space
  {
  }

  /** Send takes a non-empty prefix of what it is given or fails. */
  function Answer(r: Response, offered: nat): int {
    if r.amountSent > offered || r.amountSent == 0 then -1 else r.amountSent
  }

  ghost function AmountSent(script: Script, st: State): int {
    Answer(script(st.calls), ToWrite(st))
  }

  ghost function AfterSend(script: Script, st: State): State {
    var sent := AmountSent(script, st);
    State(if sent > 0 then st.bytes + sent else st.bytes, script(st.calls).space, st.calls + 1)
  }

  ghost predicate HasWork(st: State) {
    st.bytes < TOTAL_TX_BYTES && st.space > 0
  }

  ghost predicate Accepts(script: Script, st: State) {
    HasWork(st) && AmountSent(script, st) > 0
  }

  /** The state at the n-th loop head, if every Send before it is accepted. */
  ghost function Head(script: Script, st: State, n: nat): State
    decreases n
  {
    if n == 0 then st else Head(script, AfterSend(script, st), n - 1)
  }

  /** The three ways out of the loop: everything written, no space, a refusal. */
  datatype Ending = Complete | Full | Refused

  ghost predicate IsEnd(script: Script, st: State, ending: Ending) {
    match ending
    case Complete => st.bytes >= TOTAL_TX_BYTES
    case Full => st.bytes < TOTAL_TX_BYTES && st.space == 0
    case Refused => HasWork(st) && AmountSent(script, st) < 0
  }

  ghost predicate EndsAt(script: Script, st: State, ending: Ending, n: nat) {
    (forall k :: 0 <= k < n ==> Accepts(script, Head(script, st, k))) && IsEnd(script, Head(script, st, n), ending)
  }

  /** Some loop head is an end of this kind, and every Send ahead of it is accepted. */
  ghost predicate Ends(script: Script, st: State, ending: Ending) {
    exists n: nat :: EndsAt(script, st, ending, n)
  }

  lemma EndsHere(script: Script, st: State, ending: Ending)
    requires !Accepts(script, st)
    ensures Ends(script, st, ending) <==> IsEnd(script, st, ending)
  {
    hide Accepts, IsEnd;
    assert Head(script, st, 0) == st;
    if IsEnd(script, st, ending) { assert EndsAt(script, st, ending, 0); }
    assert forall n: nat :: EndsAt(script, st, ending, n) && n > 0 ==> Accepts(script, Head(script, st, 0));
  }

  lemma EndsLater(script: Script, st: State, ending: Ending)
    requires Accepts(script, st)
    ensures Ends(script, st, ending) <==> Ends(script, AfterSend(script, st), ending)
  {
    var next := AfterSend(script, st);
    NoEndHere(script, st, ending);
    hide Accepts, IsEnd, AfterSend;
    if n: nat :| EndsAt(script, st, ending, n) {
      assert n > 0;
      assert forall k: nat :: Head(script, next, k) == Head(script, st, k + 1);
      assert EndsAt(script, next, ending, n - 1);
    }
    if n: nat :| EndsAt(script, next, ending, n) {
      forall k | 0 <= k < n + 1 ensures Accepts(script, Head(script, st, k)) {
        if k > 0 { assert Head(script, st, k) == Head(script, next, k - 1); }
      }
      assert EndsAt(script, st, ending, n + 1);
    }
  }

  lemma NoEndHere(script: Script, st: State, ending: Ending)
    requires Accepts(script, st)
    ensures !IsEnd(script, Head(script, st, 0), ending)
  {
  }

  /** How a call ends, and the state in which it returns. */
  ghost function Outcome(script: Script, st: State): (Ending, State)
    decreases TOTAL_TX_BYTES - st.bytes
  {
    if Accepts(script, st) then Outcome(script, AfterSend(script, st))
    else if HasWork(st) then (Refused, AfterSend(script, st))
    else (if st.bytes < TOTAL_TX_BYTES then Full else Complete, st)
  }

  ghost function Final(script: Script, st: State): State {
    Outcome(script, st).1
  }

  /** Every call ends in exactly one of the three ways; everything is written exactly if it is the
      first, and a call that ends without space returns without space. */
  lemma {:induction false} OneEnding(script: Script, st: State)
    requires st.bytes <= TOTAL_TX_BYTES
    ensures st.bytes <= Final(script, st).bytes <= TOTAL_TX_BYTES
    ensures forall ending :: Ends(script, st, ending) <==> ending == Outcome(script, st).0
    ensures Final(script, st).bytes == TOTAL_TX_BYTES <==> Ends(script, st, Complete)
    ensures Ends(script, st, Full) ==> Final(script, st).space == 0
    decreases TOTAL_TX_BYTES - st.bytes
  {
    hide Ends, EndsAt, Head;
    if Accepts(script, st) {
      SendIsBounded(script, st);
      OneEnding(script, AfterSend(script, st));
      forall ending ensures Ends(script, st, ending) <==> Ends(script, AfterSend(script, st), ending) {
        EndsLater(script, st, ending);
      }
    } else {
      hide Accepts;
      forall ending ensures Ends(script, st, ending) <==> IsEnd(script, st, ending) {
        EndsHere(script, st, ending);
      }
      if HasWork(st) { NotAccepted(script, st); }
    }
  }

  lemma SendIsBounded(script: Script, st: State)
    requires Accepts(script, st)
    ensures st.bytes < AfterSend(script, st).bytes <= TOTAL_TX_BYTES
  {
  }

  lemma NotAccepted(script: Script, st: State)
    requires HasWork(st) && !Accepts(script, st)
    ensures AmountSent(script, st) < 0
  {
  }

  /** One Send as the loop makes it, in terms of the amount offered and the answer. */
  lemma SendMeans(script: Script, st: State)
    requires HasWork(st)
    ensures var left, room := TOTAL_TX_BYTES - st.bytes, WRITE_SIZE - st.bytes % WRITE_SIZE;
            var sent := Answer(script(st.calls), Min(Min(room, left), st.space));
            && (Accepts(script, st) <==> sent > 0)
            && AmountSent(script, st) == sent
            && AfterSend(script, st) == State(if sent > 0 then st.bytes + sent else st.bytes, script(st.calls).space, st.calls + 1)
  {
  }

  lemma LoopOutcome(script: Script, st: State)
    ensures Accepts(script, st) ==> Outcome(script, st) == Outcome(script, AfterSend(script, st))
    ensures HasWork(st) && !Accepts(script, st) ==> Outcome(script, st) == (Refused, AfterSend(script, st))
    ensures !HasWork(st) ==> Outcome(script, st) == (if st.bytes < TOTAL_TX_BYTES then Full else Complete, st)
  {
  }

  /** A full buffer is an end at once, whatever the socket would answer. */
  lemma NoSpaceEnds(script: Script, st: State)
    requires st.bytes < TOTAL_TX_BYTES && st.space == 0
    ensures Ends(script, st, Full) && Final(script, st) == st
  {
    EndsHere(script, st, Full);
  }

  /** A send buffer that takes all it has space for and does not drain during the call. */
  ghost predicate PlainBuffer(script: Script, st: State) {
    forall n: nat :: FillsUp(script, Head(script, st, n))
  }

  ghost predicate FillsUp(script: Script, st: State) {
    HasWork(st) ==> script(st.calls) == Response(ToWrite(st), st.space - ToWrite(st))
  }

  /** Such a call never ends in a refusal, and it is complete exactly if the space at its start covers
      what was left to write; otherwise exactly that space is used up before the close. */
  lemma {:induction false} PlainBufferIsComplete(script: Script, st: State)
    requires PlainBuffer(script, st) && st.bytes <= TOTAL_TX_BYTES
    ensures Ends(script, st, Complete) <==> st.bytes + st.space >= TOTAL_TX_BYTES
    ensures Ends(script, st, Full) <==> st.bytes + st.space < TOTAL_TX_BYTES
    ensures Final(script, st).bytes == Min(TOTAL_TX_BYTES, st.bytes + st.space)
    decreases TOTAL_TX_BYTES - st.bytes
  {
    assert Head(script, st, 0) == st;
    assert FillsUp(script, Head(script, st, 0));
    if HasWork(st) {
      var next := AfterSend(script, st);
      AllIsTaken(script, st);
      PlainBufferNext(script, st);
      PlainBufferIsComplete(script, next);
      EndsLater(script, st, Complete);
      EndsLater(script, st, Full);
    } else {
      EndsHere(script, st, Complete);
      EndsHere(script, st, Full);
    }
  }

  lemma AllIsTaken(script: Script, st: State)
    requires HasWork(st) && FillsUp(script, st)
    ensures Accepts(script, st)
    ensures var next := AfterSend(script, st);
            st.bytes < next.bytes <= TOTAL_TX_BYTES && next.bytes + next.space == st.bytes + st.space
  {
  }

  lemma PlainBufferNext(script: Script, st: State)
    requires PlainBuffer(script, st)
    ensures PlainBuffer(script, AfterSend(script, st))
  {
    var next := AfterSend(script, st);
    hide FillsUp, AfterSend;
    forall n: nat ensures FillsUp(script, Head(script, next, n)) {
      assert Head(script, st, n + 1) == Head(script, next, n);
    }
  }

  /** The state in which the call after these callbacks begins; each brings the space it reports. */
  ghost function CallStart(script: Script, start: State, callbacks: seq<nat>): (st: State)
    requires start.bytes <= TOTAL_TX_BYTES
    ensures st.bytes <= TOTAL_TX_BYTES
  {
    if callbacks == [] then start else
      var last := |callbacks| - 1;
      var before := CallStart(script, start, callbacks[..last]);
      OneEnding(script, before);
      var done := Final(script, before);
      State(done.bytes, callbacks[last], done.calls)
  }

  /** The i-th call of the flow, the start included, ends in this way. */
  ghost predicate CallEnds(script: Script, start: State, callbacks: seq<nat>, i: nat, ending: Ending)
    requires start.bytes <= TOTAL_TX_BYTES && i <= |callbacks|
  {
    Ends(script, CallStart(script, start, callbacks[..i]), ending)
  }

  /** What the flow has written when its n-th call returns. */
  ghost function BytesAfter(script: Script, start: State, callbacks: seq<nat>, n: nat): nat
    requires start.bytes <= TOTAL_TX_BYTES && n <= |callbacks|
  {
    Final(script, CallStart(script, start, callbacks[..n])).bytes
  }

  /** One of the calls up to the n-th writes the last byte. */
  ghost predicate Delivers(script: Script, start: State, callbacks: seq<nat>, n: nat)
    requires start.bytes <= TOTAL_TX_BYTES && n <= |callbacks|
  {
    exists i :: 0 <= i <= n && CallEnds(script, start, callbacks, i, Complete)
  }

  lemma {:induction false} DeliversIff(script: Script, start: State, callbacks: seq<nat>, n: nat)
    requires start.bytes <= TOTAL_TX_BYTES && n <= |callbacks|
    ensures BytesAfter(script, start, callbacks, n) == TOTAL_TX_BYTES <==> Delivers(script, start, callbacks, n)
  {
    hide Ends, Outcome;
    OneEnding(script, CallStart(script, start, callbacks[..n]));
    if n > 0 {
      DeliversIff(script, start, callbacks, n - 1);
      assert callbacks[..n][..n - 1] == callbacks[..n - 1];
      assert Delivers(script, start, callbacks, n)
        <==> Delivers(script, start, callbacks, n - 1) || CallEnds(script, start, callbacks, n, Complete);
    } else {
      assert CallEnds(script, start, callbacks, 0, Complete) ==> Delivers(script, start, callbacks, 0);
    }
  }

  /** The first of the calls up to the n-th that closes the socket. */
  ghost function Closer(script: Script, start: State, callbacks: seq<nat>, n: nat): Option<nat>
    requires start.bytes <= TOTAL_TX_BYTES && n <= |callbacks|
  {
    if n > 0 && Closer(script, start, callbacks, n - 1).Some? then Closer(script, start, callbacks, n - 1)
    else if CallEnds(script, start, callbacks, n, Refused) then None
    else Some(n)
  }

  /** The flow is first closed by its i-th call. */
  ghost predicate ClosedBy(script: Script, start: State, callbacks: seq<nat>, i: nat)
    requires start.bytes <= TOTAL_TX_BYTES && i <= |callbacks|
  {
    !CallEnds(script, start, callbacks, i, Refused)
    && forall j :: 0 <= j < i ==> CallEnds(script, start, callbacks, j, Refused)
  }

  lemma {:induction false} CloserIsFirst(script: Script, start: State, callbacks: seq<nat>, n: nat, i: nat)
    requires start.bytes <= TOTAL_TX_BYTES && i <= n <= |callbacks|
    ensures ClosedBy(script, start, callbacks, i) <==> Closer(script, start, callbacks, n) == Some(i)
    ensures Closer(script, start, callbacks, n) == None ==> CallEnds(script, start, callbacks, i, Refused)
    ensures var c := Closer(script, start, callbacks, n); c.Some? ==> c.value <= n
    decreases n
  {
    hide CallEnds;
    if n > 0 {
      CloserIsFirst(script, start, callbacks, n - 1, if i < n then i else n - 1);
      forall j | 0 <= j < n ensures Closer(script, start, callbacks, n - 1) == None ==> CallEnds(script, start, callbacks, j, Refused) {
        CloserIsFirst(script, start, callbacks, n - 1, j);
      }
      var c := Closer(script, start, callbacks, n - 1);
      if c.Some? { CloserIsFirst(script, start, callbacks, n - 1, c.value); }
    }
  }

  /** The flow is closed while bytes are left exactly if the first call that does not end in a refusal
      ends without space. */
  ghost predicate ClosesShort(script: Script, start: State, callbacks: seq<nat>)
    requires start.bytes <= TOTAL_TX_BYTES
  {
    exists i :: 0 <= i <= |callbacks| && ClosedBy(script, start, callbacks, i) && CallEnds(script, start, callbacks, i, Full)
  }

  lemma ClosesShortIff(script: Script, start: State, callbacks: seq<nat>)
    requires start.bytes <= TOTAL_TX_BYTES
    ensures ClosesShort(script, start, callbacks)
            <==> var c := Closer(script, start, callbacks, |callbacks|);
                 c.Some? && c.value <= |callbacks| && BytesAfter(script, start, callbacks, c.value) < TOTAL_TX_BYTES
  {
    hide Ends, Outcome, CallStart, Closer, ClosedBy;
    forall i | 0 <= i <= |callbacks|
      ensures ClosedBy(script, start, callbacks, i) <==> Closer(script, start, callbacks, |callbacks|) == Some(i)
      ensures ClosedBy(script, start, callbacks, i) ==>
                (CallEnds(script, start, callbacks, i, Full) <==> BytesAfter(script, start, callbacks, i) < TOTAL_TX_BYTES)
    {
      CloserIsFirst(script, start, callbacks, |callbacks|, i);
      OneEnding(script, CallStart(script, start, callbacks[..i]));
      NotRefused(script, start, callbacks, i);
    }
    CloserIsFirst(script, start, callbacks, |callbacks|, 0);
  }

  lemma NotRefused(script: Script, start: State, callbacks: seq<nat>, i: nat)
    requires start.bytes <= TOTAL_TX_BYTES && i <= |callbacks|
    ensures ClosedBy(script, start, callbacks, i) ==> !Ends(script, CallStart(script, start, callbacks[..i]), Refused)
  {
  }

  /** The socket, as far as the writer can tell. `closedWith` is the number of bytes accepted by the
      time of the first Close. */
  class Socket {
    const script: Script
    var txAvailable: nat
    var calls: nat
    var closed: bool
    ghost var accepted: seq<bv8>
    ghost var closedWith: Option<nat>

    constructor (txAvailable: nat, script: Script)
      ensures IsNew() && this.script == script && this.txAvailable == txAvailable && calls == 0
    {
      this.txAvailable, this.script, calls, closed, accepted, closedWith := txAvailable, script, 0, false, [], None;
    }

    ghost predicate IsNew() reads this {
      accepted == [] && !closed && closedWith == None
    }

    method Send(chunk: seq<bv8>) returns (amountSent: int)
      requires 0 < |chunk| <= txAvailable
      modifies this`txAvailable, this`calls, this`accepted
      ensures amountSent == Answer(script(old(calls)), |chunk|)
      ensures txAvailable == script(old(calls)).space && calls == old(calls) + 1
      ensures accepted == if amountSent < 0 then old(accepted) else old(accepted) + chunk[..amountSent]
    {
      var response := script(calls);
      amountSent := Answer(response, |chunk|);
      if amountSent > 0 {
        accepted := accepted + chunk[..amountSent];
      }
      txAvailable := response.space;
      calls := calls + 1;
    }

    method Close()
      modifies this`closed, this`closedWith
      ensures closed
      ensures closedWith == if old(closed) then old(closedWith) else Some(|accepted|)
    {
      if !closed { closedWith := Some(|accepted|); }
      closed := true;
    }

    /** The environment: acknowledged data frees space. */
    method SpaceBecomes(space: nat)
      modifies this`txAvailable
      ensures txAvailable == space
    {
      txAvailable := space;
    }
  }

  /** The globals of the program: the transmit counter and the data buffer. */
  class Writer {
    const data: array<bv8>
    var currentTxBytes: nat

    constructor (data: array<bv8>)
      requires data.Length == WRITE_SIZE
      ensures this.data == data && currentTxBytes == 0
    {
      this.data := data;
      currentTxBytes := 0;
    }

    /** What the socket has accepted is exactly the first currentTxBytes bytes of the stream. */
    ghost predicate InStep(socket: Socket) reads this, data, socket {
      && data.Length == WRITE_SIZE
      && currentTxBytes <= TOTAL_TX_BYTES
      && socket.accepted == Repeated(data[..], currentTxBytes)
    }

    ghost function View(socket: Socket): State reads this, socket {
      State(currentTxBytes, socket.txAvailable, socket.calls)
    }

    /** The call writes everything exactly if it ends complete, and closes exactly unless it ends in a
        refusal; so it closes early exactly if it comes to a loop head without space. */
    method WriteUntilBufferFull(socket: Socket)
      requires InStep(socket)
      modifies this`currentTxBytes, socket
      ensures InStep(socket) && old(currentTxBytes) <= currentTxBytes
      ensures View(socket) == Final(socket.script, old(View(socket)))
      ensures currentTxBytes == TOTAL_TX_BYTES <==> Ends(socket.script, old(View(socket)), Complete)
      ensures socket.closed <==> old(socket.closed) || !Ends(socket.script, old(View(socket)), Refused)
      ensures socket.closedWith == if old(socket.closed) || !socket.closed then old(socket.closedWith) else Some(currentTxBytes)
      ensures !old(socket.closed) ==>
                (socket.closed && currentTxBytes < TOTAL_TX_BYTES <==> Ends(socket.script, old(View(socket)), Full))
      ensures old(socket.txAvailable) == 0 && old(currentTxBytes) < TOTAL_TX_BYTES ==>
                socket.closed && currentTxBytes == old(currentTxBytes)
    {
      hide Ends, Outcome, Repeated, AfterSend, Accepts, AmountSent, ToWrite;
      ghost var start := View(socket);
      OneEnding(socket.script, start);
      LoopOutcome(socket.script, start);
      while currentTxBytes < TOTAL_TX_BYTES && socket.txAvailable > 0
        invariant InStep(socket) && old(currentTxBytes) <= currentTxBytes
        invariant socket.closed == old(socket.closed) && socket.closedWith == old(socket.closedWith)
        invariant Outcome(socket.script, View(socket)) == Outcome(socket.script, start)
        decreases TOTAL_TX_BYTES - currentTxBytes
      {
        ghost var here := View(socket);
        var left := TOTAL_TX_BYTES - currentTxBytes;
        var dataOffset := currentTxBytes % WRITE_SIZE;
        var toWrite := WRITE_SIZE - dataOffset;
        toWrite := Min(toWrite, left);
        toWrite := Min(toWrite, socket.txAvailable);
        SendMeans(socket.script, here);
        LoopOutcome(socket.script, here);
        var chunk := data[dataOffset..dataOffset + toWrite];
        var amountSent := socket.Send(chunk);
        if amountSent < 0 {
          return;
        }
        assert chunk == data[..][dataOffset..dataOffset + toWrite];
        StreamContinues(data[..], currentTxBytes, chunk, amountSent);
        currentTxBytes := currentTxBytes + amountSent;
      }
      LoopOutcome(socket.script, View(socket));
      socket.Close();
    }

    /** StartFlow on a socket that nothing has been written to yet. */
    method StartFlow(socket: Socket)
      requires data.Length == WRITE_SIZE && socket.IsNew()
      modifies this`currentTxBytes, socket
      ensures InStep(socket)
      ensures var start := State(0, old(socket.txAvailable), old(socket.calls));
              && View(socket) == Final(socket.script, start)
              && (currentTxBytes == TOTAL_TX_BYTES <==> Ends(socket.script, start, Complete))
              && (socket.closed <==> !Ends(socket.script, start, Refused))
              && (socket.closed && currentTxBytes < TOTAL_TX_BYTES <==> Ends(socket.script, start, Full))
              && socket.closedWith == (if socket.closed then Some(currentTxBytes) else None)
      ensures old(socket.txAvailable) == 0 ==> socket.closed && currentTxBytes == 0
    {
      currentTxBytes := 0;
      OneEnding(socket.script, View(socket));
      WriteUntilBufferFull(socket);
    }

    /** A socket that reports no space at first is closed by StartFlow before anything is written. */
    method StartWithoutSpace(script: Script) returns (socket: Socket)
      requires data.Length == WRITE_SIZE
      modifies this`currentTxBytes
      ensures socket.closed && socket.accepted == [] && socket.closedWith == Some(0)
    {
      socket := new Socket(0, script);
      StartFlow(socket);
    }

    /** One whole flow: the start and any number of later "space available" callbacks. Everything is
        delivered exactly if some call ends complete; the socket is closed with less exactly if the
        first call that does not end in a refusal ends without space. */
    method RunFlow(socket: Socket, callbacks: seq<nat>)
      requires data.Length == WRITE_SIZE && socket.IsNew()
      modifies this`currentTxBytes, socket
      ensures InStep(socket)
      ensures |socket.accepted| == currentTxBytes <= TOTAL_TX_BYTES
      ensures forall i :: 0 <= i < |socket.accepted| ==> socket.accepted[i] == data[i % WRITE_SIZE]
      ensures var start := State(0, old(socket.txAvailable), old(socket.calls));
              && (currentTxBytes == TOTAL_TX_BYTES <==> Delivers(socket.script, start, callbacks, |callbacks|))
              && (socket.closedWith.Some? && socket.closedWith.value < TOTAL_TX_BYTES
                  <==> ClosesShort(socket.script, start, callbacks))
    {
      hide Ends, Outcome, Repeated, Delivers, ClosesShort, ClosedBy;
      ghost var start := State(0, socket.txAvailable, socket.calls);
      assert callbacks[..0] == [];
      StartFlow(socket);
      OneEnding(socket.script, start);
      for i := 0 to |callbacks|
        invariant InStep(socket)
        invariant View(socket) == Final(socket.script, CallStart(socket.script, start, callbacks[..i]))
        invariant socket.closed == Closer(socket.script, start, callbacks, i).Some?
        invariant socket.closed ==> Closer(socket.script, start, callbacks, i).value <= i
        invariant socket.closedWith
               == if socket.closed then Some(BytesAfter(socket.script, start, callbacks, Closer(socket.script, start, callbacks, i).value))
                  else None
      {
        socket.SpaceBecomes(callbacks[i]);
        assert callbacks[..i + 1][..i] == callbacks[..i];
        assert View(socket) == CallStart(socket.script, start, callbacks[..i + 1]);
        OneEnding(socket.script, View(socket));
        WriteUntilBufferFull(socket);
      }
      DeliversIff(socket.script, start, callbacks, |callbacks|);
      ClosesShortIff(socket.script, start, callbacks);
    }
  }
}
