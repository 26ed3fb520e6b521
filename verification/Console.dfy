/** The virtual UART between the host console and OpenSBI: two character queues of 4096 bytes whose 32-bit
    indices are used modulo the size. One end may keep its index reduced, as the console does, or let it
    run freely through wraparound; both give a FIFO of capacity 4095. */
module Console {
  import opened BitFields
  import opened RingBuffer

  const BUFFER_SIZE: nat := 0x1000

  datatype Style = Reduced | FreeRunning

  /** An index moved on by one character. */
  function Bump(style: Style, i: u32): u32
  {
    var next := if i == TWO32 - 1 then 0 else i + 1;
    if style.Reduced? then next % BUFFER_SIZE else next
  }

  /** 4096 divides 2^32, so both styles name the next slot, also at wraparound. */
  lemma BumpIsNext(style: Style, i: u32)
    ensures Bump(style, i) % BUFFER_SIZE == Next(i % BUFFER_SIZE, BUFFER_SIZE)
  {
  }

  /** A reduced index is the next one modulo the size, and below it; a free-running one wraps at 2^32 only. */
  lemma BumpIs(i: u32)
    ensures Bump(Reduced, i) == (i % 0x1000 + 1) % 0x1000 < 0x1000
    ensures Bump(FreeRunning, i) == (i + 1) % 0x1_0000_0000
  {
  }

  /** One queue with raw indices. */
  datatype Queue = Queue(buf: seq<char>, head: u32, tail: u32)

  function View(q: Queue): Ring<char> { Ring(q.buf, q.head % BUFFER_SIZE, q.tail % BUFFER_SIZE) }

  predicate CanPush(q: Queue) { (q.head % BUFFER_SIZE + 1) % BUFFER_SIZE != q.tail % BUFFER_SIZE }

  predicate CanPop(q: Queue) { q.head % BUFFER_SIZE != q.tail % BUFFER_SIZE }

  /** The two tests, for all index values. */
  lemma TestsExact(q: Queue)
    requires |q.buf| == BUFFER_SIZE
    ensures CanPush(q) <==> |Contents(View(q))| < BUFFER_SIZE - 1
    ensures CanPop(q) <==> Contents(View(q)) != []
    ensures |Contents(View(q))| <= BUFFER_SIZE - 1
  {
    EmptyOrFull(View(q));
  }

  function Put(q: Queue, c: char): Queue
    requires |q.buf| == BUFFER_SIZE
  {
    q.(buf := q.buf[q.head % BUFFER_SIZE := c])
  }

  /** Storing the character and then the index appends it; before the index moves nothing shows. */
  lemma PushAppends(q: Queue, c: char, style: Style)
    requires |q.buf| == BUFFER_SIZE && CanPush(q)
    ensures Contents(View(Put(q, c))) == Contents(View(q))
    ensures Contents(View(Put(q, c).(head := Bump(style, q.head)))) == Contents(View(q)) + [c]
  {
    TestsExact(q);
    WriteIsHidden(View(q), c);
    BumpIsNext(style, q.head);
    PublishAppends(View(Put(q, c)));
  }

  lemma PopRemoves(q: Queue, style: Style)
    requires |q.buf| == BUFFER_SIZE && CanPop(q)
    ensures Contents(View(q)) == [q.buf[q.tail % BUFFER_SIZE]] + Contents(View(q.(tail := Bump(style, q.tail))))
  {
    BumpIsNext(style, q.tail);
    AdvanceRemoves(View(q));
  }

  // ----- The two ends, interleaved -----

  /** Spinning on the test, about to store the character, about to store the index. */
  datatype Pusher = Spin | StoreChar(c: char) | StoreHead(c: char)

  datatype Popper = Wait | Load | StoreTail(c: char)

  /** A queue with its two ends and their histories. */
  datatype Uart = Uart(
    q: Queue, pusher: Pusher, popper: Popper, pushStyle: Style, popStyle: Style, sent: seq<char>, got: seq<char>)

  datatype Turn = Push(c: char) | Pop

  function PushStep(u: Uart, c: char): Uart
    requires |u.q.buf| == BUFFER_SIZE
  {
    match u.pusher
    case Spin => if CanPush(u.q) then u.(pusher := StoreChar(c)) else u
    case StoreChar(c) => u.(q := Put(u.q, c), pusher := StoreHead(c))
    case StoreHead(c) =>
      u.(q := u.q.(head := Bump(u.pushStyle, u.q.head)), pusher := Spin, sent := u.sent + [c])
  }

  function PopStep(u: Uart): Uart
    requires |u.q.buf| == BUFFER_SIZE
  {
    match u.popper
    case Wait => if CanPop(u.q) then u.(popper := Load) else u
    case Load => u.(popper := StoreTail(u.q.buf[u.q.tail % BUFFER_SIZE]))
    case StoreTail(c) =>
      u.(q := u.q.(tail := Bump(u.popStyle, u.q.tail)), popper := Wait, got := u.got + [c])
  }

  function Play(u: Uart, turns: seq<Turn>): Uart
    decreases |turns|
  {
    if turns == [] then u
    else
      var v := Play(u, turns[..|turns| - 1]);
      if |v.q.buf| != BUFFER_SIZE then v
      else
        match turns[|turns| - 1]
        case Push(c) => PushStep(v, c)
        case Pop => PopStep(v)
  }

  /** What was pushed is what was popped, in order, and then what the queue holds. */
  ghost predicate UartInv(u: Uart)
  {
    && |u.q.buf| == BUFFER_SIZE
    && u.sent == u.got + Contents(View(u.q))
    && (!u.pusher.Spin? ==> CanPush(u.q))
    && (u.pusher.StoreHead? ==> u.q.buf[u.q.head % BUFFER_SIZE] == u.pusher.c)
    && (!u.popper.Wait? ==> CanPop(u.q))
    && (u.popper.StoreTail? ==> u.q.buf[u.q.tail % BUFFER_SIZE] == u.popper.c)
  }

  lemma PushKeeps(u: Uart, c: char)
    requires UartInv(u)
    ensures UartInv(PushStep(u, c))
  {
    hide Contents, Bump;
    TestsExact(u.q);
    match u.pusher
    case Spin =>
    case StoreChar(c) =>
      PushAppends(u.q, c, u.pushStyle);
      WriteIsHidden(View(u.q), c);
    case StoreHead(c) =>
      PushAppends(u.q, c, u.pushStyle);
      assert Put(u.q, c) == u.q;
      TestsExact(PushStep(u, c).q);
  }

  lemma PopKeeps(u: Uart)
    requires UartInv(u)
    ensures UartInv(PopStep(u))
  {
    hide Contents, Bump;
    if u.popper.StoreTail? {
      PopRemoves(u.q, u.popStyle);
      TestsExact(u.q);
      TestsExact(PopStep(u).q);
    }
  }

  /** A FIFO of capacity 4095 in every interleaving, from any pair of indices that agree modulo the size. */
  lemma {:induction false} ConsoleIsFifo(u: Uart, turns: seq<Turn>)
    requires |u.q.buf| == BUFFER_SIZE && u.q.head % BUFFER_SIZE == u.q.tail % BUFFER_SIZE
    requires u.pusher.Spin? && u.popper.Wait? && u.sent == u.got == []
    ensures var v := Play(u, turns);
      && UartInv(v) && v.got <= v.sent && |v.sent| - |v.got| <= BUFFER_SIZE - 1
    decreases |turns|
  {
    hide PushStep, PopStep, Bump;
    if turns != [] {
      ConsoleIsFifo(u, turns[..|turns| - 1]);
      var v := Play(u, turns[..|turns| - 1]);
      match turns[|turns| - 1]
      case Push(c) => PushKeeps(v, c);
      case Pop => PopKeeps(v);
    }
  }

  /** Left to itself a push that finds room takes three turns, and one that does not changes nothing. */
  lemma PushGoes(u: Uart, c: char)
    requires UartInv(u) && u.pusher.Spin?
    ensures var v1 := PushStep(u, c);
      |v1.q.buf| == 0x1000 && |PushStep(v1, c).q.buf| == 0x1000 &&
      var v := PushStep(PushStep(v1, c), c);
      if |Contents(View(u.q))| < 4095 then
        v.pusher.Spin? && v.sent == u.sent + [c] && Contents(View(v.q)) == Contents(View(u.q)) + [c]
      else v == u
  {
    hide Contents, Bump, CanPush, CanPop;
    TestsExact(u.q);
    if CanPush(u.q) {
      PushAppends(u.q, c, u.pushStyle);
    }
  }

  lemma PopGoes(u: Uart)
    requires UartInv(u) && u.popper.Wait?
    ensures var v := PopStep(PopStep(PopStep(u)));
      if Contents(View(u.q)) != [] then
        && v.popper.Wait? && v.got == u.got + [Contents(View(u.q))[0]]
        && Contents(View(v.q)) == Contents(View(u.q))[1..]
      else v == u
  {
    hide Contents, Bump, CanPush, CanPop;
    TestsExact(u.q);
    if CanPop(u.q) {
      PopRemoves(u.q, u.popStyle);
    }
  }

  // ----- push_char and pop_char themselves -----

  /** The side of struct queues that one direction uses, in memory shared with a peer. */
  class SharedQueue {
    const buf: array<char>
    var head: u32
    var tail: u32

    ghost predicate Valid() { buf.Length == BUFFER_SIZE }

    ghost function Value(): Queue
      reads this, buf
    {
      Queue(buf[..], head, tail)
    }

    ghost function Chars(): seq<char>
      requires Valid()
      reads this, buf
    {
      Contents(View(Value()))
    }

    constructor (buf: array<char>, head: u32, tail: u32)
      requires buf.Length == BUFFER_SIZE
      ensures this.buf == buf && this.head == head && this.tail == tail && Valid()
    {
      this.buf, this.head, this.tail := buf, head, tail;
    }

    lemma Tests()
      requires Valid()
      ensures CanPush(Value()) <==> |Chars()| < BUFFER_SIZE - 1
      ensures CanPop(Value()) <==> Chars() != []
      ensures |Chars()| <= BUFFER_SIZE - 1
    {
      TestsExact(Value());
    }

    /** The peer's pops, n of them or as many as there are characters. */
    method PeerPops(n: nat, style: Style) returns (popped: seq<char>)
      requires Valid()
      modifies this`tail
      ensures old(Chars()) == popped + Chars() && |popped| <= n && (|popped| < n ==> Chars() == [])
      ensures old(CanPush(Value())) ==> CanPush(Value())
    {
      hide SharedQueue.Chars, CanPush, CanPop;
      popped := [];
      Tests();
      while |popped| < n && CanPop(Queue(buf[..], head, tail))
        invariant old(Chars()) == popped + Chars() && |popped| <= n
      {
        var c := LoadChar();
        Regroup(popped, [c], Chars()[1..]);
        StoreTail(style);
        popped := popped + [c];
      }
      Tests();
    }

    /** The peer's pushes, as many of cs as fit. */
    method PeerPushes(cs: seq<char>, style: Style) returns (pushed: seq<char>)
      requires Valid()
      modifies this`head, buf
      ensures Chars() == old(Chars()) + pushed && pushed <= cs && (pushed < cs ==> |Chars()| == BUFFER_SIZE - 1)
      ensures old(CanPop(Value())) ==> CanPop(Value())
    {
      hide SharedQueue.Chars, CanPush, CanPop;
      pushed := [];
      Tests();
      while |pushed| < |cs| && CanPush(Queue(buf[..], head, tail))
        invariant Chars() == old(Chars()) + pushed && pushed <= cs
      {
        var c := cs[|pushed|];
        Regroup(old(Chars()), pushed, [c]);
        StoreChar(c);
        StoreHead(c, style);
        pushed := pushed + [c];
      }
      Tests();
    }

    /** The spin of push_char: peer says how many characters the other end takes before each test. */
    method AwaitRoom(peer: seq<nat>, style: Style) returns (room: bool, popped: seq<char>)
      requires Valid()
      modifies this`tail
      ensures room == CanPush(Value()) && old(Chars()) == popped + Chars()
      ensures !room ==> forall n <- peer :: n == 0
    {
      hide SharedQueue.Chars, CanPush;
      popped := [];
      var i := 0;
      while !CanPush(Queue(buf[..], head, tail)) && i < |peer|
        invariant i <= |peer| && old(Chars()) == popped + Chars()
        invariant CanPush(Value()) || forall k :: 0 <= k < i ==> peer[k] == 0
      {
        Tests();
        var p := PeerPops(peer[i], style);
        Tests();
        Regroup(popped, p, Chars());
        popped := popped + p;
        i := i + 1;
      }
      room := CanPush(Queue(buf[..], head, tail));
    }

    /** push_char, with a peer that takes characters before every test, between the last test and the store of the
        character, and between that and the store of the index. The character goes in behind all others; only a peer
        that takes nothing from a full queue keeps it waiting. */
    method PushChar(c: char, peer: seq<nat>, beforeChar: nat, beforeHead: nat, style: Style)
        returns (done: bool, popped: seq<char>)
      requires Valid()
      modifies this, buf
      ensures Valid()
      ensures old(Chars()) + (if done then [c] else []) == popped + Chars()
      ensures !done ==> |Chars()| == BUFFER_SIZE - 1 && popped == [] && forall n <- peer :: n == 0
      ensures head == if done then (old(head) % 0x1000 + 1) % 0x1000 else old(head)
    {
      hide SharedQueue.Chars, CanPush;
      Tests();
      BumpIs(head);
      done, popped := AwaitRoom(peer, style);
      Tests();
      if done {
        var p := PeerPops(beforeChar, style);
        Regroup(popped, p, Chars());
        popped := popped + p;
        StoreChar(c);
        p := PeerPops(beforeHead, style);
        Regroup(popped, p, Chars());
        popped := popped + p;
        Regroup(popped, Chars(), [c]);
        StoreHead(c, Reduced);
      }
    }

    /** The character goes into the slot at head, where nobody sees it. */
    method StoreChar(c: char)
      requires Valid() && CanPush(Value())
      modifies buf
      ensures Chars() == old(Chars()) && CanPush(Value()) && buf[head % BUFFER_SIZE] == c
    {
      PushAppends(Value(), c, Reduced);
      hide Contents, Bump;
      buf[head % BUFFER_SIZE] := c;
    }

    method StoreHead(ghost c: char, style: Style)
      requires Valid() && CanPush(Value()) && buf[head % BUFFER_SIZE] == c
      modifies this`head
      ensures Chars() == old(Chars()) + [c] && head == Bump(style, old(head))
    {
      PublishStored(Value(), c, style);
      hide Contents;
      head := Bump(style, head);
    }

    /** The spin of pop_char: peer says what the other end pushes before each test. */
    method AwaitChar(peer: seq<seq<char>>, style: Style) returns (some: bool, pushed: seq<char>)
      requires Valid()
      modifies this`head, buf
      ensures some == CanPop(Value()) && old(Chars()) + pushed == Chars()
      ensures !some ==> forall p <- peer :: p == []
    {
      hide SharedQueue.Chars, CanPop;
      pushed := [];
      var i := 0;
      while !CanPop(Queue(buf[..], head, tail)) && i < |peer|
        invariant i <= |peer| && old(Chars()) + pushed == Chars()
        invariant CanPop(Value()) || forall k :: 0 <= k < i ==> peer[k] == []
      {
        Tests();
        var p := PeerPushes(peer[i], style);
        Tests();
        Regroup(old(Chars()), pushed, p);
        pushed := pushed + p;
        i := i + 1;
      }
      some := CanPop(Queue(buf[..], head, tail));
    }

    /** pop_char, with a peer that pushes before every test, between the last test and the load, and between that and
        the store of the index. It takes the oldest character; only a peer that pushes nothing to an empty queue keeps
        it waiting. */
    method PopChar(peer: seq<seq<char>>, beforeLoad: seq<char>, beforeTail: seq<char>, style: Style)
        returns (r: seq<char>, pushed: seq<char>)
      requires Valid()
      modifies this, buf
      ensures Valid() && |r| <= 1
      ensures old(Chars()) + pushed == r + Chars()
      ensures r == [] ==> Chars() == [] && pushed == [] && forall p <- peer :: p == []
      ensures tail == if r != [] then (old(tail) % 0x1000 + 1) % 0x1000 else old(tail)
    {
      hide SharedQueue.Chars, CanPop;
      BumpIs(tail);
      var some: bool;
      some, pushed := AwaitChar(peer, style);
      Tests();
      r := [];
      if some {
        var p := PeerPushes(beforeLoad, style);
        Regroup(old(Chars()), pushed, p);
        pushed := pushed + p;
        var c := LoadChar();
        p := PeerPushes(beforeTail, style);
        Regroup(old(Chars()), pushed, p);
        pushed := pushed + p;
        assert Chars()[0] == c;
        StoreTail(Reduced);
        r := [c];
      }
    }

    method LoadChar() returns (c: char)
      requires Valid() && CanPop(Value())
      ensures Chars() != [] && c == Chars()[0]
    {
      PopRemoves(Value(), Reduced);
      hide Contents;
      c := buf[tail % BUFFER_SIZE];
    }

    method StoreTail(style: Style)
      requires Valid() && CanPop(Value())
      modifies this`tail
      ensures old(Chars()) != [] && Chars() == old(Chars())[1..] && tail == Bump(style, old(tail))
    {
      PopRemoves(Value(), style);
      hide Contents;
      tail := Bump(style, tail);
    }
  }

  lemma Regroup(a: seq<char>, b: seq<char>, c: seq<char>)
    ensures a + (b + c) == a + b + c
  {
  }

  lemma StoredAtHead(q: Queue, c: char)
    requires |q.buf| == BUFFER_SIZE && q.buf[q.head % BUFFER_SIZE] == c
    ensures q.buf[q.head % BUFFER_SIZE := c] == q.buf
  {
  }

  /** Moving the index shows the character stored at it. */
  lemma PublishStored(q: Queue, c: char, style: Style)
    requires |q.buf| == BUFFER_SIZE && CanPush(q) && q.buf[q.head % BUFFER_SIZE] == c
    ensures Contents(View(q.(head := Bump(style, q.head)))) == Contents(View(q)) + [c]
  {
    hide Contents, View, Bump, CanPush;
    StoredAtHead(q, c);
    PushAppends(q, c, style);
  }
}
