/** The ring of received frames between the CAN read thread and the CAN process thread
    (comm/comm_can.c:1183-1214, 1298-1311, 1389-1391). The process thread takes a pointer to a slot
    under the mutex and copies the slot after the mutex is released. */
module RxRing {
  import opened Bytes

  const RX_FRAMES_SIZE := 50

  // `taken` is the pointer the process thread holds between comm_can_get_rx_frame and its copy.
  datatype Ring<T> = Ring(slots: seq<T>, read: int, write: int, taken: Option<int>) {
    predicate Valid() {
      && |slots| == RX_FRAMES_SIZE
      && 0 <= read < RX_FRAMES_SIZE && 0 <= write < RX_FRAMES_SIZE
      && (taken.Some? ==> 0 <= taken.value < RX_FRAMES_SIZE)
    }
  }

  function Wrap(i: int): int { if i == RX_FRAMES_SIZE then 0 else i }

  // The atomic actions of the two threads. The process thread alternates getting and copying.
  datatype Action<T> = Receive(frame: T) | ProcessorStep

  function Act<T>(r: Ring<T>, a: Action<T>): (res: (Ring<T>, seq<T>))
    requires r.Valid()
    ensures res.0.Valid()
  {
    match a
    case Receive(f) => (r.(slots := r.slots[r.write := f], write := Wrap(r.write + 1)), [])
    case ProcessorStep =>
      if r.taken.Some? then (r.(taken := None), [r.slots[r.taken.value]])
      else if r.read == r.write then (r, [])
      else (r.(read := Wrap(r.read + 1), taken := Some(r.read)), [])
  }

  class RxState<T(0)> {
    const rxFrames: array<T>
    var frameRead: int
    var frameWrite: int
    var rxmsgTmp: Option<int>

    ghost predicate Valid()
      reads this, rxFrames
    {
      rxFrames.Length == RX_FRAMES_SIZE && State().Valid()
    }

    ghost function State(): Ring<T>
      reads this, rxFrames
    {
      Ring(rxFrames[..], frameRead, frameWrite, rxmsgTmp)
    }

    // memset of m_rx_state in comm_can_init
    constructor ()
      ensures Valid() && fresh(rxFrames)
      ensures State() == Ring(rxFrames[..], 0, 0, None)
    {
      rxFrames := new T[RX_FRAMES_SIZE];
      frameRead, frameWrite, rxmsgTmp := 0, 0, None;
    }

    // cancom_read_thread, one received frame.
    method Store(rxmsg: T)
      requires Valid()
      modifies this`frameWrite, rxFrames
      ensures Valid() && State() == Act(old(State()), Receive(rxmsg)).0
    {
      rxFrames[frameWrite] := rxmsg;
      frameWrite := frameWrite + 1;
      if frameWrite == RX_FRAMES_SIZE {
        frameWrite := 0;
      }
    }

    // comm_can_get_rx_frame; the result is the index of the slot, None for NULL.
    method GetRxFrame() returns (res: Option<int>)
      requires Valid() && rxmsgTmp == None
      modifies this`frameRead, this`rxmsgTmp
      ensures Valid() && res == rxmsgTmp
      ensures (State(), []) == Act(old(State()), ProcessorStep)
    {
      res := None;
      if frameRead != frameWrite {
        res := Some(frameRead);
        frameRead := frameRead + 1;
        if frameRead == RX_FRAMES_SIZE {
          frameRead := 0;
        }
      }
      rxmsgTmp := res;
    }

    // CANRxFrame rxmsg = *rxmsg_tmp
    method CopyFrame() returns (rxmsg: T)
      requires Valid() && rxmsgTmp.Some?
      modifies this`rxmsgTmp
      ensures Valid()
      ensures (State(), [rxmsg]) == Act(old(State()), ProcessorStep)
    {
      rxmsg := rxFrames[rxmsgTmp.value];
      rxmsgTmp := None;
    }
  }

  // The intended queue: everything received so far, how much of it was fetched and copied.
  datatype Fifo<T> = Fifo(received: seq<T>, fetched: nat, holding: bool) {
    predicate Valid() { fetched <= |received| && (holding ==> 1 <= fetched) }

    function Unread(): int { |received| - fetched }

    function Processed(): seq<T>
      requires Valid()
    {
      received[..if holding then fetched - 1 else fetched]
    }
  }

  function Queue<T>(q: Fifo<T>, a: Action<T>): (q': Fifo<T>)
    requires q.Valid()
    ensures q'.Valid() && q.received <= q'.received
  {
    match a
    case Receive(f) => q.(received := q.received + [f])
    case ProcessorStep =>
      if q.holding then q.(holding := false)
      else if q.fetched == |q.received| then q
      else q.(fetched := q.fetched + 1, holding := true)
  }

  // The ring stands for the queue: each unread frame, and the one being copied, is in its slot.
  ghost predicate Represents<T(!new)>(r: Ring<T>, q: Fifo<T>)
    requires r.Valid() && q.Valid()
  {
    && q.Unread() < RX_FRAMES_SIZE
    && r.read == q.fetched % RX_FRAMES_SIZE
    && r.write == |q.received| % RX_FRAMES_SIZE
    && r.taken == (if q.holding then Some((q.fetched - 1) % RX_FRAMES_SIZE) else None)
    && forall k :: |q.Processed()| <= k < |q.received| ==> r.slots[k % RX_FRAMES_SIZE] == q.received[k]
  }

  lemma SlotsDiffer(a: int, b: int)
    requires a < b < a + RX_FRAMES_SIZE
    ensures a % RX_FRAMES_SIZE != b % RX_FRAMES_SIZE
  {
  }

  lemma WrapIsMod(n: nat)
    ensures Wrap(n % RX_FRAMES_SIZE + 1) == (n + 1) % RX_FRAMES_SIZE
  {
  }

  lemma ReceiveRefinesQueue<T(!new)>(r: Ring<T>, q: Fifo<T>, f: T)
    requires r.Valid() && q.Valid() && Represents(r, q)
    requires q.Unread() + 1 < RX_FRAMES_SIZE
    ensures Represents(Act(r, Receive(f)).0, Queue(q, Receive(f)))
  {
    hide Wrap;
    var n := |q.received|;
    WrapIsMod(n);
    forall k | |q.Processed()| <= k < n
      ensures r.slots[r.write := f][k % RX_FRAMES_SIZE] == q.received[k]
    {
      SlotsDiffer(k, n);
      assert r.slots[k % RX_FRAMES_SIZE] == q.received[k];
    }
  }

  lemma CopyRefinesQueue<T(!new)>(r: Ring<T>, q: Fifo<T>)
    requires r.Valid() && q.Valid() && Represents(r, q) && q.holding
    ensures Represents(Act(r, ProcessorStep).0, Queue(q, ProcessorStep))
    ensures Queue(q, ProcessorStep).Processed() == q.Processed() + Act(r, ProcessorStep).1
  {
    var k := q.fetched - 1;
    assert r.slots[k % RX_FRAMES_SIZE] == q.received[k];
    assert q.received[..q.fetched] == q.received[..k] + [q.received[k]];
  }

  lemma FetchRefinesQueue<T(!new)>(r: Ring<T>, q: Fifo<T>)
    requires r.Valid() && q.Valid() && Represents(r, q) && !q.holding
    ensures Represents(Act(r, ProcessorStep).0, Queue(q, ProcessorStep))
    ensures Queue(q, ProcessorStep).Processed() == q.Processed()
    ensures Act(r, ProcessorStep).1 == []
  {
    hide Wrap;
    WrapIsMod(q.fetched);
    if q.fetched < |q.received| {
      SlotsDiffer(q.fetched, |q.received|);
    }
  }

  // One action keeps the ring in step with the queue as long as at most RX_FRAMES_SIZE - 1 frames are unread,
  // even if it happens between the fetch of a slot and its copy.
  lemma ActRefinesQueue<T(!new)>(r: Ring<T>, q: Fifo<T>, a: Action<T>)
    requires r.Valid() && q.Valid() && Represents(r, q)
    requires Queue(q, a).Unread() < RX_FRAMES_SIZE
    ensures Represents(Act(r, a).0, Queue(q, a))
    ensures Queue(q, a).Processed() == q.Processed() + Act(r, a).1
  {
    match a
    case Receive(f) =>
      ReceiveRefinesQueue(r, q, f);
      assert q.Processed() == q.Processed() + [];
    case ProcessorStep =>
      if q.holding {
        CopyRefinesQueue(r, q);
      } else {
        FetchRefinesQueue(r, q);
        assert q.Processed() == q.Processed() + [];
      }
  }

  function Acts<T>(r: Ring<T>, actions: seq<Action<T>>): (res: (Ring<T>, seq<T>))
    requires r.Valid()
    ensures res.0.Valid()
    decreases |actions|
  {
    if actions == [] then (r, [])
    else
      var (r1, o1) := Act(r, actions[0]);
      var (r2, o2) := Acts(r1, actions[1..]);
      (r2, o1 + o2)
  }

  function Queues<T>(q: Fifo<T>, actions: seq<Action<T>>): (q': Fifo<T>)
    requires q.Valid()
    ensures q'.Valid() && q.received <= q'.received
    decreases |actions|
  {
    if actions == [] then q else Queues(Queue(q, actions[0]), actions[1..])
  }

  predicate NeverOverrun<T>(q: Fifo<T>, actions: seq<Action<T>>)
    requires q.Valid()
    decreases |actions|
  {
    actions == [] ||
    (Queue(q, actions[0]).Unread() < RX_FRAMES_SIZE && NeverOverrun(Queue(q, actions[0]), actions[1..]))
  }

  lemma {:induction false} RunRefinesQueue<T(!new)>(r: Ring<T>, q: Fifo<T>, actions: seq<Action<T>>)
    requires r.Valid() && q.Valid() && Represents(r, q) && NeverOverrun(q, actions)
    ensures Represents(Acts(r, actions).0, Queues(q, actions))
    ensures Queues(q, actions).Processed() == q.Processed() + Acts(r, actions).1
    decreases |actions|
  {
    hide Represents, Act, Queue;
    if actions == [] {
      assert q.Processed() + [] == q.Processed();
    } else {
      var (r1, o1) := Act(r, actions[0]);
      ActRefinesQueue(r, q, actions[0]);
      RunRefinesQueue(r1, Queue(q, actions[0]), actions[1..]);
      assert q.Processed() + o1 + Acts(r1, actions[1..]).1 == q.Processed() + (o1 + Acts(r1, actions[1..]).1);
    }
  }

  // From the empty ring, whatever the interleaving: the frames processed are a prefix of the frames received.
  lemma {:induction false} ProcessedIsPrefixOfReceived<T(!new)>(slots: seq<T>, actions: seq<Action<T>>)
    requires |slots| == 50 && NeverOverrun(Fifo([], 0, false), actions)
    ensures var out := Acts(Ring(slots, 0, 0, None), actions).1;
            var q := Queues(Fifo([], 0, false), actions);
            && out <= q.received
            && |out| == if q.holding then q.fetched - 1 else q.fetched
  {
    RunRefinesQueue(Ring(slots, 0, 0, None), Fifo([], 0, false), actions);
  }

  // The bound is exact. The next fetch finds a frame iff the bound holds; one frame more and the ring
  // looks empty with RX_FRAMES_SIZE frames unread, and a slot that is still to be copied is overwritten.
  lemma {:induction false} OverrunLosesFrames<T(!new)>(r: Ring<T>, q: Fifo<T>, f: T)
    requires r.Valid() && q.Valid() && Represents(r, q)
    ensures var (r1, q1) := (Act(r, Receive(f)).0, Queue(q, Receive(f)));
            && (r1.read != r1.write <==> q1.Unread() < RX_FRAMES_SIZE)
            && (q.holding && RX_FRAMES_SIZE <= q1.Unread() ==> Act(r1, ProcessorStep).1 == [f])
  {
    var n, k := |q.received| + 1, q.fetched;
    assert r.read == k % RX_FRAMES_SIZE && Wrap(r.write + 1) == n % RX_FRAMES_SIZE;
    if n - k < RX_FRAMES_SIZE {
      SlotsDiffer(k, n);
    } else {
      assert n == k + RX_FRAMES_SIZE;
      assert (n - 1) % RX_FRAMES_SIZE == (k - 1) % RX_FRAMES_SIZE;
    }
    hide Wrap;
  }
}
