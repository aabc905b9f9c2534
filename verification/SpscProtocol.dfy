/** The two threads of the single-producer single-consumer ring, one memory access a step.
    An atomic index is its modification order: the sequence of all values ever stored to it. An acquire load
    may return any value not older than the newest one this thread has seen. A slot of the buffer is the
    sequence of items written to it; a store to tail_ releases the writes made so far, and a read of a slot
    may return the newest write that was released to the reader or any later one. */
module SpscProtocol {

  datatype Producer<T> =
    | PIdle
    | PLoad(item: T)   // the cached head says full: load head_
    | PWrite(item: T)  // there is room: write the slot
    | PStore(item: T)  // publish the new tail

  datatype Consumer<T> =
    | CIdle
    | CLoad            // the cached tail says empty: load tail_
    | CRead            // there is an item: read the slot
    | CStore(item: T)  // publish the new head

  datatype State<T> = State(
    tails: seq<nat>,             // modification order of tail_
    heads: seq<nat>,             // modification order of head_
    slots: seq<seq<T>>,          // modification order of each slot
    released: seq<seq<nat>>,     // per store to tail_: how many writes of each slot it releases
    producer: Producer<T>, headCache: nat, headSeen: nat,
    consumer: Consumer<T>, tailCache: nat, tailSeen: nat,
    pushed: seq<T>,              // items whose push returned true
    popped: seq<T>)              // items returned by pop

  datatype Action<T> =
    | PushBegin(item: T) | PushLoad(seen: nat) | PushWrite | PushPublish
    | PopBegin | PopLoad(seen: nat) | PopRead(version: nat) | PopPublish

  function Last<T>(s: seq<T>): T
    requires |s| > 0
  {
    s[|s| - 1]
  }

  /** What the types of the program give: a positive capacity, one slot per index, initialised atomics. */
  predicate Shaped<T>(n: nat, s: State<T>) {
    && n > 0 && |s.slots| == n && |s.tails| > 0 && |s.heads| > 0 && |s.released| == |s.tails|
    && (forall v <- s.released :: |v| == n)
    && s.headSeen < |s.heads| && s.tailSeen < |s.tails|
  }

  function Start<T>(n: nat): (s: State<T>)
    requires n > 0
    ensures Shaped(n, s)
  {
    State([0], [0], seq(n, _ => []), [seq(n, _ => 0)], PIdle, 0, 0, CIdle, 0, 0, [], [])
  }

  function Tail<T>(s: State<T>): nat requires |s.tails| > 0 { Last(s.tails) }
  function Head<T>(s: State<T>): nat requires |s.heads| > 0 { Last(s.heads) }

  predicate Enabled<T>(n: nat, s: State<T>, a: Action<T>)
    requires Shaped(n, s)
  {
    match a
    case PushBegin(_) => s.producer.PIdle?
    case PushLoad(j) => s.producer.PLoad? && s.headSeen <= j < |s.heads|
    case PushWrite => s.producer.PWrite?
    case PushPublish => s.producer.PStore?
    case PopBegin => s.consumer.CIdle?
    case PopLoad(j) => s.consumer.CLoad? && s.tailSeen <= j < |s.tails|
    case PopRead(k) =>
      var i := Head(s) % n;
      s.consumer.CRead? && s.released[s.tailSeen][i] <= k + 1 && k < |s.slots[i]|
    case PopPublish => s.consumer.CStore?
  }

  /** The state after an enabled access, and the result if a call returns with it. */
  function Step<T>(n: nat, s: State<T>, a: Action<T>): (r: (State<T>, bool))
    requires Shaped(n, s) && Enabled(n, s, a)
    ensures Shaped(n, r.0)
  {
    match a
    case PushBegin(item) =>
      var next := (Tail(s) + 1) % n;
      (s.(producer := if next == s.headCache then PLoad(item) else PWrite(item)), true)
    case PushLoad(j) =>
      var next := (Tail(s) + 1) % n;
      var cache := s.heads[j];
      (s.(headCache := cache, headSeen := j,
          producer := if next == cache then PIdle else PWrite(s.producer.item)), next != cache)
    case PushWrite =>
      var i := Tail(s) % n;
      (s.(slots := s.slots[i := s.slots[i] + [s.producer.item]], producer := PStore(s.producer.item)), true)
    case PushPublish =>
      (s.(tails := s.tails + [(Tail(s) + 1) % n],
          released := s.released + [seq(n, i requires 0 <= i < n => |s.slots[i]|)],
          pushed := s.pushed + [s.producer.item], producer := PIdle), true)
    case PopBegin =>
      (s.(consumer := if Head(s) == s.tailCache then CLoad else CRead), true)
    case PopLoad(j) =>
      var cache := s.tails[j];
      (s.(tailCache := cache, tailSeen := j, consumer := if Head(s) == cache then CIdle else CRead), Head(s) != cache)
    case PopRead(k) =>
      (s.(consumer := CStore(s.slots[Head(s) % n][k])), true)
    case PopPublish =>
      (s.(heads := s.heads + [(Head(s) + 1) % n], popped := s.popped + [s.consumer.item], consumer := CIdle), true)
  }
}
