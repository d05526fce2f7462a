/** The resumable writer of examples/socket/socket-bound-tcp-static-routing.cc:
    WriteUntilBufferFull sends a buffer over and over, as far as the socket has
    room, and is called again when the socket has room again. */
module BufferWriter {
  import opened Arithmetic

  type Byte = i: int | 0 <= i < 256

  /** One turn of the loop as the socket sees it: how much room it reports, and how
      much of an offer it takes (a negative number is an error). */
  datatype Turn = Turn(room: nat, take: nat -> int)

  ghost predicate Polite(turns: seq<Turn>) {
    forall i, k :: 0 <= i < |turns| ==> turns[i].take(k) <= k
  }

  /** Every offer of at least one byte is refused, or makes progress. */
  ghost predicate Progressing(turns: seq<Turn>) {
    forall i, k: nat :: 0 <= i < |turns| && k > 0 ==> turns[i].take(k) != 0
  }

  /** The first n bytes of the buffer repeated for ever. */
  function Repeated(data: seq<Byte>, n: nat): seq<Byte>
    requires data != []
  {
    seq(n, k => data[k % |data|])
  }

  /** Within one lap of the buffer the offset moves with the position. */
  lemma WithinBuffer(n: nat, j: nat, size: nat)
    requires size > 0 && n % size + j < size
    ensures (n + j) % size == n % size + j
  {
    SameQuotient((n + j) / size, n / size, (n + j) % size, n % size + j, size);
  }

  lemma RepeatedExtends(data: seq<Byte>, n: nat, k: nat)
    requires data != [] && n % |data| + k <= |data|
    ensures Repeated(data, n) + data[n % |data|..n % |data| + k] == Repeated(data, n + k)
  {
    var all := Repeated(data, n) + data[n % |data|..n % |data| + k];
    forall i | 0 <= i < n + k ensures all[i] == Repeated(data, n + k)[i] {
      if i >= n {
        WithinBuffer(n, i - n, |data|);
      }
    }
  }

  /** How much the next send offers: as much as the end of the buffer, the target
      and the room allow, so the read stays inside the buffer. */
  function NextWrite(size: nat, target: nat, current: nat, room: nat): (toWrite: nat)
    requires size > 0 && current <= target
    ensures current % size + toWrite <= size && current + toWrite <= target && toWrite <= room
    ensures current % size + toWrite == size || current + toWrite == target || toWrite == room
  {
    var left := target - current;
    var dataOffset := current % size;
    var toWrite := size - dataOffset;
    var bounded := if left < toWrite then left else toWrite;
    if room < bounded then room else bounded
  }

  // ----------------------------------------------------------------- the meaning

  /** What the socket answers to the k-th send of a call, and the counter before
      it, when the call starts at `start` and no earlier send was refused. */
  ghost function Answer(size: nat, target: nat, start: nat, turns: seq<Turn>, k: nat): int
    requires size > 0 && start <= target && Polite(turns) && k < |turns|
    decreases k, 1
  {
    turns[k].take(NextWrite(size, target, Counter(size, target, start, turns, k), turns[k].room))
  }

  ghost function Counter(size: nat, target: nat, start: nat, turns: seq<Turn>, k: nat): (c: nat)
    requires size > 0 && start <= target && Polite(turns) && k <= |turns|
    ensures start <= c <= target
    decreases k, 0
  {
    if k == 0 then start
    else
      var c := Counter(size, target, start, turns, k - 1);
      var sent := Answer(size, target, start, turns, k - 1);
      if sent > 0 then c + sent else c
  }

  /** The call gets as far as its k-th send. */
  ghost predicate Sends(size: nat, target: nat, start: nat, turns: seq<Turn>, k: nat)
    requires size > 0 && start <= target && Polite(turns)
  {
    k < |turns| && turns[k].room > 0 && Counter(size, target, start, turns, k) < target
  }

  /** The k-th send goes through and the loop continues. */
  ghost predicate Passes(size: nat, target: nat, start: nat, turns: seq<Turn>, k: nat)
    requires size > 0 && start <= target && Polite(turns)
  {
    Sends(size, target, start, turns, k) && Answer(size, target, start, turns, k) >= 0
  }

  /** The socket has no room for the k-th send; after its turns it has none. */
  predicate NoRoom(turns: seq<Turn>, k: nat) {
    k >= |turns| || turns[k].room == 0
  }

  /** The call passes its first k sends and then finds no room, with bytes unsent. */
  ghost predicate RunsOutOfRoom(size: nat, target: nat, start: nat, turns: seq<Turn>, k: nat)
    requires size > 0 && start <= target && Polite(turns)
  {
    && k <= |turns| && (forall i: nat :: i < k ==> Passes(size, target, start, turns, i))
    && NoRoom(turns, k) && Counter(size, target, start, turns, k) < target
  }

  ghost predicate RunsOut(size: nat, target: nat, start: nat, turns: seq<Turn>)
    requires size > 0 && start <= target && Polite(turns)
  {
    exists k: nat :: RunsOutOfRoom(size, target, start, turns, k)
  }

  /** Where the sends stop passing decides whether the call runs out of room. */
  lemma RunsOutAt(size: nat, target: nat, start: nat, turns: seq<Turn>, passed: nat)
    requires size > 0 && start <= target && Polite(turns) && passed <= |turns|
    requires forall k: nat :: k < passed ==> Passes(size, target, start, turns, k)
    requires !Passes(size, target, start, turns, passed)
    ensures RunsOut(size, target, start, turns) <==>
            Counter(size, target, start, turns, passed) < target && !Sends(size, target, start, turns, passed)
  {
    if k: nat :| RunsOutOfRoom(size, target, start, turns, k) {
      assert k < passed ==> Passes(size, target, start, turns, k);
      assert k == passed;
    }
    if Counter(size, target, start, turns, passed) < target && !Sends(size, target, start, turns, passed) {
      assert RunsOutOfRoom(size, target, start, turns, passed);
    }
  }

  // ------------------------------------------------------------- a send buffer

  /** The turns of a call on a send buffer with some room: it takes all it is
      offered, and its room shrinks by what it took. */
  function BufferTurns(size: nat, target: nat, current: nat, room: nat): (turns: seq<Turn>)
    requires size > 0 && current <= target
    ensures Polite(turns)
    decreases room
  {
    if room == 0 || current == target then []
    else
      var n := NextWrite(size, target, current, room);
      [Turn(room, k => k)] + BufferTurns(size, target, current + n, room - n)
  }

  function Least(a: nat, b: nat): nat {
    if a < b then a else b
  }

  /** After a first send that goes through, the rest of a call is a call from where
      it led. */
  lemma {:induction false} CounterShifts(size: nat, target: nat, start: nat, turns: seq<Turn>, k: nat)
    requires size > 0 && start <= target && Polite(turns) && k < |turns| && Polite(turns[1..])
    requires Passes(size, target, start, turns, 0)
    ensures Counter(size, target, start, turns, k + 1) ==
            Counter(size, target, Counter(size, target, start, turns, 1), turns[1..], k)
  {
    if k == 0 {
    } else {
      CounterShifts(size, target, start, turns, k - 1);
      assert turns[1..][k - 1] == turns[k];
    }
  }

  lemma {:induction false} PassesShift(size: nat, target: nat, start: nat, turns: seq<Turn>, k: nat)
    requires size > 0 && start <= target && Polite(turns) && k < |turns| - 1 && Polite(turns[1..])
    requires Passes(size, target, start, turns, 0)
    ensures Passes(size, target, start, turns, k + 1) <==>
            Passes(size, target, Counter(size, target, start, turns, 1), turns[1..], k)
  {
    CounterShifts(size, target, start, turns, k);
    assert turns[1..][k] == turns[k + 1];
  }

  /** If the first send goes through, and all others from where it led, all do. */
  lemma {:induction false} AllPass(size: nat, target: nat, start: nat, turns: seq<Turn>, next: nat)
    requires size > 0 && start <= target && Polite(turns) && turns != [] && Polite(turns[1..])
    requires Passes(size, target, start, turns, 0) && next == Counter(size, target, start, turns, 1)
    requires forall k: nat :: k < |turns[1..]| ==> Passes(size, target, next, turns[1..], k)
    ensures forall k: nat :: k < |turns| ==> Passes(size, target, start, turns, k)
    ensures Counter(size, target, start, turns, |turns|) == Counter(size, target, next, turns[1..], |turns[1..]|)
  {
    forall k: nat | 0 < k < |turns| ensures Passes(size, target, start, turns, k) {
      PassesShift(size, target, start, turns, k - 1);
    }
    CounterShifts(size, target, start, turns, |turns| - 1);
  }

  lemma FirstPasses(size: nat, target: nat, start: nat, turns: seq<Turn>)
    requires size > 0 && start < target && Polite(turns) && turns != [] && turns[0].room > 0
    requires turns[0].take(NextWrite(size, target, start, turns[0].room)) == NextWrite(size, target, start, turns[0].room)
    ensures Passes(size, target, start, turns, 0)
    ensures Counter(size, target, start, turns, 1) == start + NextWrite(size, target, start, turns[0].room)
  {
    assert Counter(size, target, start, turns, 0) == start;
    assert Answer(size, target, start, turns, 0) == NextWrite(size, target, start, turns[0].room);
  }

  /** The first send on a buffer with room takes n bytes of it. */
  lemma FirstFills(size: nat, target: nat, start: nat, room: nat) returns (n: nat)
    requires size > 0 && start < target && room > 0
    ensures 0 < n <= room && start + n <= target
    ensures var turns := BufferTurns(size, target, start, room);
      && turns != [] && turns[1..] == BufferTurns(size, target, start + n, room - n)
      && Passes(size, target, start, turns, 0) && Counter(size, target, start, turns, 1) == start + n
  {
    n := NextWrite(size, target, start, room);
    var turns := BufferTurns(size, target, start, room);
    assert turns[1..] == BufferTurns(size, target, start + n, room - n);
    FirstPasses(size, target, start, turns);
  }

  /** Every send of a call goes through, and together they move the counter by n. */
  ghost predicate Moves(size: nat, target: nat, start: nat, turns: seq<Turn>, n: nat)
    requires size > 0 && start <= target && Polite(turns)
  {
    && (forall k: nat :: k < |turns| ==> Passes(size, target, start, turns, k))
    && Counter(size, target, start, turns, |turns|) == start + n
  }

  lemma MovesOn(size: nat, target: nat, start: nat, turns: seq<Turn>, n: nat, m: nat)
    requires size > 0 && start + n <= target && Polite(turns) && turns != [] && Polite(turns[1..])
    requires Passes(size, target, start, turns, 0) && Counter(size, target, start, turns, 1) == start + n
    requires Moves(size, target, start + n, turns[1..], m)
    ensures Moves(size, target, start, turns, n + m)
  {
    AllPass(size, target, start, turns, start + n);
  }

  lemma StopsAtEnd(size: nat, target: nat, start: nat, turns: seq<Turn>, n: nat, passed: nat)
    requires size > 0 && start <= target && Polite(turns) && Moves(size, target, start, turns, n)
    requires passed <= |turns| && !Passes(size, target, start, turns, passed)
    ensures passed == |turns|
  {
  }

  /** On a buffer the sends fill the room, or reach the target. */
  lemma {:induction false} BufferFills(size: nat, target: nat, start: nat, room: nat)
    requires size > 0 && start <= target
    ensures Moves(size, target, start, BufferTurns(size, target, start, room), Least(room, target - start))
    decreases room
  {
    if room == 0 || start == target {
    } else {
      var n := FirstFills(size, target, start, room);
      BufferFills(size, target, start + n, room - n);
      MovesOn(size, target, start, BufferTurns(size, target, start, room), n, Least(room - n, target - (start + n)));
    }
  }

  lemma RunsOutAfter(size: nat, target: nat, start: nat, turns: seq<Turn>, n: nat)
    requires size > 0 && start <= target && Polite(turns) && Moves(size, target, start, turns, n)
    ensures RunsOut(size, target, start, turns) <==> start + n < target
  {
    RunsOutAt(size, target, start, turns, |turns|);
  }

  /** On a send buffer a call runs out of room, and closes the socket with bytes
      unsent, exactly when the room it starts with is less than what is left. */
  lemma {:induction false} RunsOutIff(size: nat, target: nat, start: nat, room: nat)
    requires size > 0 && start <= target
    ensures RunsOut(size, target, start, BufferTurns(size, target, start, room)) <==> room < target - start
  {
    BufferFills(size, target, start, room);
    RunsOutAfter(size, target, start, BufferTurns(size, target, start, room), Least(room, target - start));
  }

  /** Sends that are never answered with 0 move the counter by at least one each. */
  lemma {:induction false} EverySendCounts(size: nat, target: nat, start: nat, turns: seq<Turn>, k: nat)
    requires size > 0 && start <= target && Polite(turns) && Progressing(turns) && k <= |turns|
    requires forall i: nat :: i < k ==> Passes(size, target, start, turns, i)
    ensures start + k <= Counter(size, target, start, turns, k)
  {
    if k == 0 {
    } else {
      EverySendCounts(size, target, start, turns, k - 1);
      assert Passes(size, target, start, turns, k - 1);
    }
  }

  datatype Ending = Closed | Refused

  class Flow {
    const data: seq<Byte>
    const totalTxBytes: nat
    var currentTxBytes: nat
    var closed: bool
    ghost var accepted: seq<Byte>   // what the socket took

    /** The bytes the socket took are a prefix of the repeated buffer, never more
        than the target, and the counter is their number. */
    ghost predicate Valid()
      reads this
    {
      data != [] && currentTxBytes <= totalTxBytes && accepted == Repeated(data, currentTxBytes)
    }

    /** StartFlow, up to its first call of WriteUntilBufferFull. */
    constructor (data: seq<Byte>, totalTxBytes: nat)
      requires data != []
      ensures Valid() && this.data == data && this.totalTxBytes == totalTxBytes
      ensures currentTxBytes == 0 && !closed
    {
      this.data, this.totalTxBytes := data, totalTxBytes;
      currentTxBytes, closed, accepted := 0, false, [];
    }

    /** The counter moves on by what the socket took of an offer. */
    method Accept(offer: seq<Byte>, amountSent: nat)
      requires Valid() && amountSent <= |offer| && currentTxBytes + amountSent <= totalTxBytes
      requires currentTxBytes % |data| + |offer| <= |data|
      requires offer == data[currentTxBytes % |data|..currentTxBytes % |data| + |offer|]
      modifies this`currentTxBytes, this`accepted
      ensures Valid() && currentTxBytes == old(currentTxBytes) + amountSent
      ensures accepted == old(accepted) + offer[..amountSent]
    {
      var dataOffset := currentTxBytes % |data|;
      RepeatedExtends(data, currentTxBytes, amountSent);
      assert offer[..amountSent] == data[dataOffset..dataOffset + amountSent];
      accepted := accepted + offer[..amountSent];
      currentTxBytes := currentTxBytes + amountSent;
    }

    /** One call, with the turns the socket is going to allow; after the last of
        them it reports no room.  `passed` counts the sends that went through: the
        call ends at the first turn that has nothing to send, no room, or a
        refusal, and only the refusal leaves the socket open. */
    method WriteUntilBufferFull(turns: seq<Turn>) returns (ending: Ending, ghost passed: nat)
      requires Valid() && Polite(turns)
      modifies this
      ensures Valid() && passed <= |turns|
      ensures currentTxBytes == Counter(|data|, totalTxBytes, old(currentTxBytes), turns, passed)
      ensures forall k: nat :: k < passed ==> Passes(|data|, totalTxBytes, old(currentTxBytes), turns, k)
      ensures !Passes(|data|, totalTxBytes, old(currentTxBytes), turns, passed)
      ensures ending == Refused <==> Sends(|data|, totalTxBytes, old(currentTxBytes), turns, passed)
      ensures closed == (old(closed) || ending == Closed)
      ensures ending == Closed && currentTxBytes < totalTxBytes <==>
        RunsOut(|data|, totalTxBytes, old(currentTxBytes), turns)
      ensures Progressing(turns) ==> passed <= currentTxBytes - old(currentTxBytes)
    {
      var turn := 0;
      passed := 0;
      ghost var start := currentTxBytes;
      while currentTxBytes < totalTxBytes && turn < |turns| && turns[turn].room > 0
        invariant Valid() && turn == passed <= |turns| && closed == old(closed)
        invariant currentTxBytes == Counter(|data|, totalTxBytes, start, turns, passed)
        invariant forall k: nat :: k < passed ==> Passes(|data|, totalTxBytes, start, turns, k)
        decreases |turns| - turn
      {
        var toWrite := NextWrite(|data|, totalTxBytes, currentTxBytes, turns[turn].room);
        var dataOffset := currentTxBytes % |data|;
        var offer := data[dataOffset..dataOffset + toWrite];
        var amountSent := turns[turn].take(toWrite);
        assert amountSent == Answer(|data|, totalTxBytes, start, turns, passed);
        if amountSent < 0 {
          ending := Refused;
          Bounded(start, turns, passed);
          RunsOutAt(|data|, totalTxBytes, start, turns, passed);
          return;
        }
        Accept(offer, amountSent);
        turn, passed := turn + 1, passed + 1;
      }
      closed := true;
      ending := Closed;
      Bounded(start, turns, passed);
      RunsOutAt(|data|, totalTxBytes, start, turns, passed);
    }

    lemma Bounded(start: nat, turns: seq<Turn>, passed: nat)
      requires Valid() && start <= totalTxBytes && Polite(turns) && passed <= |turns|
      requires forall k: nat :: k < passed ==> Passes(|data|, totalTxBytes, start, turns, k)
      ensures Progressing(turns) ==> start + passed <= Counter(|data|, totalTxBytes, start, turns, passed)
    {
      if Progressing(turns) {
        EverySendCounts(|data|, totalTxBytes, start, turns, passed);
      }
    }

    /** One call on a send buffer with some room: the bytes that fit are sent, and
        the socket is closed in any case, before the target is reached exactly when
        not everything fits. */
    method WriteToBuffer(room: nat)
      requires Valid()
      modifies this
      ensures Valid() && closed
      ensures currentTxBytes == old(currentTxBytes) + Least(room, totalTxBytes - old(currentTxBytes))
      ensures currentTxBytes < totalTxBytes <==> room < totalTxBytes - old(currentTxBytes)
    {
      ghost var start := currentTxBytes;
      var turns := BufferTurns(|data|, totalTxBytes, currentTxBytes, room);
      var ending;
      ghost var passed;
      ending, passed := WriteUntilBufferFull(turns);
      BufferFills(|data|, totalTxBytes, start, room);
      StopsAtEnd(|data|, totalTxBytes, start, turns, Least(room, totalTxBytes - start), passed);
    }
  }

  /** A whole flow: the first call and then one per callback.  Whatever the socket
      takes at each turn, byte k of the connection is data[k mod size]. */
  method RunFlow(data: seq<Byte>, totalTxBytes: nat, calls: seq<seq<Turn>>) returns (flow: Flow)
    requires data != [] && forall i :: 0 <= i < |calls| ==> Polite(calls[i])
    ensures fresh(flow) && flow.accepted == Repeated(data, |flow.accepted|)
    ensures |flow.accepted| == flow.currentTxBytes <= totalTxBytes
  {
    flow := new Flow(data, totalTxBytes);
    for i := 0 to |calls|
      invariant fresh(flow) && flow.Valid() && flow.data == data && flow.totalTxBytes == totalTxBytes
    {
      var _, _ := flow.WriteUntilBufferFull(calls[i]);
    }
  }

  function Sum(rooms: seq<nat>): nat {
    if rooms == [] then 0 else Sum(rooms[..|rooms| - 1]) + rooms[|rooms| - 1]
  }

  /** A whole flow on a send buffer, with the room it has at each call: everything
      is sent exactly when the rooms add up to the target. */
  method RunBufferedFlow(data: seq<Byte>, totalTxBytes: nat, rooms: seq<nat>) returns (flow: Flow)
    requires data != []
    ensures fresh(flow) && flow.accepted == Repeated(data, Least(Sum(rooms), totalTxBytes))
    ensures flow.currentTxBytes == totalTxBytes <==> Sum(rooms) >= totalTxBytes
  {
    flow := new Flow(data, totalTxBytes);
    for i := 0 to |rooms|
      invariant fresh(flow) && flow.Valid() && flow.data == data && flow.totalTxBytes == totalTxBytes
      invariant flow.currentTxBytes == Least(Sum(rooms[..i]), totalTxBytes)
    {
      assert rooms[..i + 1][..i] == rooms[..i];
      flow.WriteToBuffer(rooms[i]);
    }
    assert rooms[..|rooms|] == rooms;
  }
}
