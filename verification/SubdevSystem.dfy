/** The sub-device table shared by threads: what one step of one thread does. One device
    thread adds and deletes; it looks entries up before it takes the write lock, and frees a
    deleted one after it has released it. One cloud thread marks the entries it looks up and
    sweeps the marks, under the read lock. Any thread may look up and list addresses. */
module SubdevSystem {

  type Key = string

  const MAX_ADDRESS: nat := 16
  const NO_FIND: nat := 65535
  const NULL: nat := 0
  const DEVICE: nat := 0     // the thread that adds and deletes
  const CLOUD: nat := 1      // the thread that marks and sweeps

  /** What an entry holds. Entries are named by positive numbers, their addresses in memory. */
  datatype Cell = Cell(address: Key, kind: nat, flag: bool)

  datatype Table = Table(heap: map<nat, Cell>, list: seq<nat>, chains: seq<seq<nat>>)

  datatype Op =
    | AddOp(address: Key, kind: nat)
    | DeleteOp(address: Key)
    | DeleteAllOp
    | FindOp(address: Key)
    | MarkOp(address: Key)                 // find_ex
    | SweepOp                              // the iterator
    | KeysOp(kind: nat, rows: nat)         // get_keys

  datatype Result = Code(ret: int) | Kind(kind: nat) | Keys(keys: seq<Key>) | Failed

  // ----- the sequential meaning of the operations ---------------------------------------

  /** The position of an address, or the length when it is not there. */
  function Where(items: seq<Cell>, a: Key): (k: nat)
    ensures k <= |items| && (k < |items| ==> items[k].address == a)
    ensures forall j | 0 <= j < k :: items[j].address != a
  {
    if items == [] then 0
    else if items[0].address == a then 0
    else Where(items[1..], a) + 1
  }

  /** The addresses without a mark, in order. */
  function Unmarked(items: seq<Cell>): seq<Key> {
    if items == [] then []
    else
      var last := items[|items| - 1];
      Unmarked(items[..|items| - 1]) + (if last.flag then [] else [last.address])
  }

  /** The addresses of one device type, in order. */
  function OfKind(kind: nat, items: seq<Cell>): seq<Key> {
    if items == [] then []
    else
      var last := items[|items| - 1];
      OfKind(kind, items[..|items| - 1]) + (if last.kind == kind then [last.address] else [])
  }

  /** The items with the marks of the first `k` cleared. */
  function Cleared(items: seq<Cell>, k: nat): (r: seq<Cell>)
    ensures |r| == |items|
    ensures forall i {:trigger r[i]} | 0 <= i < |r| :: r[i] == if i < k then items[i].(flag := false) else items[i]
  {
    seq(|items|, i requires 0 <= i < |items| => if i < k then items[i].(flag := false) else items[i])
  }

  function Take(keys: seq<Key>, rows: nat): seq<Key> {
    if |keys| <= rows then keys else keys[..rows]
  }

  /** What an operation makes of the table's contents, and what it answers. */
  function Apply(items: seq<Cell>, op: Op): (seq<Cell>, Result) {
    match op
    case AddOp(a, v) =>
      var k := Where(items, a);
      if k < |items| then (items[k := items[k].(kind := v)], Code(0)) else (items + [Cell(a, v, false)], Code(0))
    case DeleteOp(a) =>
      var k := Where(items, a);
      if k < |items| then (items[..k] + items[k + 1..], Code(0)) else (items, Code(-1))
    case DeleteAllOp => ([], Code(0))
    case FindOp(a) =>
      var k := Where(items, a);
      (items, if k < |items| then Kind(items[k].kind) else Kind(NO_FIND))
    case MarkOp(a) =>
      var k := Where(items, a);
      if k < |items| then (items[k := items[k].(flag := true)], Kind(items[k].kind)) else (items, Kind(NO_FIND))
    case SweepOp => (Cleared(items, |items|), Keys(Unmarked(items)))
    case KeysOp(kind, rows) => (items, Keys(Take(OfKind(kind, items), rows)))
  }

  /** An address that is added is short enough, and a listing has at least one row. */
  predicate Fitting(op: Op) {
    && (op.AddOp? ==> |op.address| <= MAX_ADDRESS)
    && (op.KeysOp? ==> op.rows > 0)
  }

  /** The contents after a run of operations, one after another. */
  function After(items: seq<Cell>, ops: seq<Op>): seq<Cell> {
    if ops == [] then items else Apply(After(items, ops[..|ops| - 1]), ops[|ops| - 1]).0
  }

  /** Every operation of a run answers as the contents before it say. */
  ghost predicate Answers(items: seq<Cell>, ops: seq<Op>, results: seq<Result>) {
    && |results| == |ops|
    && forall i {:trigger results[i]} | 0 <= i < |ops| :: results[i] == Apply(After(items, ops[..i]), ops[i]).1
  }

  // ----- the state -------------------------------------------------------------------

  /** A call: its number, what it is, and how long the log was when it began. */
  datatype Call = Call(id: nat, op: Op, from: nat)

  /** Where a thread is. `at` is the place of a call's entry in the log, once it has one. */
  datatype Pc =
    | AddWalk(c: Call, cur: nat)               // looking the address up without the lock
    | AddMalloc(c: Call)
    | AddWait(c: Call, id: nat)                // waiting for the write lock
    | AddLinking(c: Call, id: nat)             // holding it, the links being rewritten
    | SetWait(c: Call, id: nat)
    | SetStore(c: Call, id: nat)
    | DelWalk(c: Call, cur: nat)               // looking the address up without the lock
    | DelWait(c: Call, id: nat)
    | DelUnlinking(c: Call, id: nat)
    | DelUnlock(c: Call, id: nat, at: nat)
    | DelFree(c: Call, id: nat, at: nat)       // the lock is released, the entry not yet freed
    | AllWait(c: Call)
    | AllNext(c: Call, el: nat, tmp: nat)      // deleting entry after entry
    | WUnlock(c: Call, at: nat)
    | RWait(c: Call)                           // waiting for the read lock
    | RLook(c: Call, cur: nat)
    | RGot(c: Call, id: nat)
    | RList(c: Call, el: nat, tmp: nat, found: seq<Key>, k: nat)      // at the `k`th entry
    | RSweep(c: Call, el: nat, tmp: nat, reported: seq<Key>, k: nat)
    | RUnlock(c: Call, at: nat)

  datatype Entry = Entry(call: nat, op: Op, result: Result)
  datatype Response = Response(call: nat, op: Op, result: Result, from: nat, upto: nat)

  datatype State = State(
    tbl: Table,
    torn: bool,                 // the table's links are being rewritten
    writer: bool,
    readers: set<nat>,
    threads: map<nat, Pc>,      // the threads that are in a call
    nextId: nat,
    nextCall: nat,
    log: seq<Entry>,            // the calls in the order in which they took effect
    responses: seq<Response>,
    bad: bool)                  // somebody used freed memory or links being rewritten

  function Initial(buckets: nat): State
    requires buckets > 0
  {
    State(Table(map[], [], seq(buckets, _ => [])), false, false, {}, map[], 1, 0, [], [], false)
  }

  // ----- following links -----------------------------------------------------------------

  function At(s: seq<nat>, k: nat): nat {
    if k < |s| then s[k] else NULL
  }

  function Position(s: seq<nat>, id: nat): (k: nat)
    ensures k <= |s| && (k < |s| <==> id in s) && (k < |s| ==> s[k] == id)
    ensures forall j | 0 <= j < k :: s[j] != id
  {
    if s == [] then 0 else if s[0] == id then 0 else Position(s[1..], id) + 1
  }

  /** What the link of `id` in a linked sequence points to. */
  function Next(s: seq<nat>, id: nat): nat {
    At(s, Position(s, id) + 1)
  }

  function Chain(h: Key -> nat, tbl: Table, a: Key): seq<nat> {
    if |tbl.chains| == 0 then [] else tbl.chains[h(a) % |tbl.chains|]
  }

  function Without(s: seq<nat>, id: nat): seq<nat> {
    var k := Position(s, id);
    if k < |s| then s[..k] + s[k + 1..] else s
  }

  function Address(op: Op): Key {
    match op
    case AddOp(a, _) => a
    case DeleteOp(a) => a
    case FindOp(a) => a
    case MarkOp(a) => a
    case _ => []
  }

  /** What a rewrite of the bucket chains may result in: every member of the list is in the
      chain its address hashes to, once, and the chains hold nothing else. */
  ghost predicate ChainsOk(h: Key -> nat, heap: map<nat, Cell>, list: seq<nat>, chains: seq<seq<nat>>) {
    && |chains| > 0
    && (forall id {:trigger id in list} | id in list ::
          id in heap && id in chains[h(heap[id].address) % |chains|])
    && (forall b, i {:trigger chains[b][i]} | 0 <= b < |chains| && 0 <= i < |chains[b]| :: chains[b][i] in list)
    && (forall b, i, j | 0 <= b < |chains| && 0 <= i < j < |chains[b]| :: chains[b][i] != chains[b][j])
  }

  // ----- steps ---------------------------------------------------------------------------

  predicate Device(pc: Pc) {
    !(pc.RWait? || pc.RLook? || pc.RGot? || pc.RList? || pc.RSweep? || pc.RUnlock?)
  }

  /** The pointers a thread holds. */
  function Pointers(pc: Pc): set<nat> {
    (match pc
     case AddWalk(_, cur) => {cur}
     case AddWait(_, id) => {id}
     case AddLinking(_, id) => {id}
     case SetWait(_, id) => {id}
     case SetStore(_, id) => {id}
     case DelWalk(_, cur) => {cur}
     case DelWait(_, id) => {id}
     case DelUnlinking(_, id) => {id}
     case DelUnlock(_, id, _) => {id}
     case DelFree(_, id, _) => {id}
     case AllNext(_, el, tmp) => {el, tmp}
     case RLook(_, cur) => {cur}
     case RGot(_, id) => {id}
     case RList(_, el, tmp, _, _) => {el, tmp}
     case RSweep(_, el, tmp, _, _) => {el, tmp}
     case _ => {}) - {NULL}
  }

  ghost predicate HeldElsewhere(s: State, t: nat, id: nat) {
    exists u :: u in s.threads && u != t && id in Pointers(s.threads[u])
  }

  function To(s: State, t: nat, pc: Pc): State {
    s.(threads := s.threads[t := pc])
  }

  function Answer(s: State, t: nat, c: Call, result: Result): State {
    s.(threads := s.threads - {t}, responses := s.responses + [Response(c.id, c.op, result, c.from, |s.log|)])
  }

  function Bad(s: State): State {
    s.(bad := true)
  }

  /** The call takes effect. */
  function Effect(s: State, c: Call, result: Result): State {
    s.(log := s.log + [Entry(c.id, c.op, result)])
  }

  function ResultAt(s: State, at: nat): Result {
    if at < |s.log| then s.log[at].result else Failed
  }

  predicate Free(s: State) {
    !s.writer && s.readers == {}
  }

  function Lock(s: State): State {
    s.(writer := true)
  }

  function LockTorn(s: State): State {
    s.(writer := true, torn := true)
  }

  /** The table may be read through this pointer. */
  predicate Readable(s: State, id: nat) {
    !s.torn && id in s.tbl.heap
  }

  /** The device thread. `ok` says whether an allocation or a lock call succeeds, `chains` what
      a rewrite makes of the bucket chains. */
  ghost function DeviceStep(h: Key -> nat, s: State, t: nat, ok: bool, chains: seq<seq<nat>>): State
    requires t in s.threads
  {
    var tbl := s.tbl;
    match s.threads[t]
    case AddWalk(c, cur) =>
      if cur == NULL then To(s, t, AddMalloc(c))
      else if !Readable(s, cur) then Bad(s)
      else if tbl.heap[cur].address == Address(c.op) then To(s, t, SetWait(c, cur))
      else To(s, t, AddWalk(c, Next(Chain(h, tbl, Address(c.op)), cur)))
    case AddMalloc(c) =>
      if !ok || !c.op.AddOp? then Answer(s, t, c, Failed)
      else
        var cell := Cell(c.op.address, c.op.kind, false);
        To(s.(tbl := tbl.(heap := tbl.heap[s.nextId := cell]), nextId := s.nextId + 1), t, AddWait(c, s.nextId))
    case AddWait(c, id) =>
      if !ok then Answer(s, t, c, Failed)
      else if Free(s) then LockTorn(To(s, t, AddLinking(c, id)))
      else s
    case AddLinking(c, id) =>
      if id !in tbl.heap then Bad(s)
      else if ChainsOk(h, tbl.heap, tbl.list + [id], chains) then
        To(Effect(s.(tbl := tbl.(list := tbl.list + [id], chains := chains), torn := false), c, Code(0)),
           t, WUnlock(c, |s.log|))
      else s
    case SetWait(c, id) =>
      if !ok then Answer(s, t, c, Failed)
      else if Free(s) then Lock(To(s, t, SetStore(c, id)))
      else s
    case SetStore(c, id) =>
      if id !in tbl.heap || !c.op.AddOp? then Bad(s)
      else
        To(Effect(s.(tbl := tbl.(heap := tbl.heap[id := tbl.heap[id].(kind := c.op.kind)])), c, Code(0)),
           t, WUnlock(c, |s.log|))
    case DelWalk(c, cur) =>
      if cur == NULL then Answer(Effect(s, c, Code(-1)), t, c, Code(-1))
      else if !Readable(s, cur) then Bad(s)
      else if tbl.heap[cur].address == Address(c.op) then To(s, t, DelWait(c, cur))
      else To(s, t, DelWalk(c, Next(Chain(h, tbl, Address(c.op)), cur)))
    case DelWait(c, id) =>
      if !ok then Answer(s, t, c, Failed)
      else if Free(s) then LockTorn(To(s, t, DelUnlinking(c, id)))
      else s
    case DelUnlinking(c, id) =>
      if id !in tbl.heap || id !in tbl.list then Bad(s)
      else if ChainsOk(h, tbl.heap, Without(tbl.list, id), chains) then
        To(Effect(s.(tbl := tbl.(list := Without(tbl.list, id), chains := chains), torn := false), c, Code(0)),
           t, DelUnlock(c, id, |s.log|))
      else s
    case DelUnlock(c, id, at) => To(s.(writer := false), t, DelFree(c, id, at))
    case DelFree(c, id, at) =>
      if id !in tbl.heap || HeldElsewhere(s, t, id) then Bad(s)
      else Answer(s.(tbl := tbl.(heap := tbl.heap - {id})), t, c, ResultAt(s, at))
    case AllWait(c) =>
      if !ok then Answer(s, t, c, Failed)
      else if Free(s) then Lock(To(s, t, AllNext(c, At(tbl.list, 0), Next(tbl.list, At(tbl.list, 0)))))
      else s
    case AllNext(c, el, tmp) =>
      if el == NULL then To(Effect(s, c, Code(0)), t, WUnlock(c, |s.log|))
      else if el !in tbl.heap || el !in tbl.list || HeldElsewhere(s, t, el) then Bad(s)
      else if tmp != NULL && tmp !in tbl.heap then Bad(s)
      else if ChainsOk(h, tbl.heap - {el}, Without(tbl.list, el), chains) then
        To(s.(tbl := Table(tbl.heap - {el}, Without(tbl.list, el), chains)),
           t, AllNext(c, tmp, if tmp == NULL then NULL else Next(Without(tbl.list, el), tmp)))
      else s
    case WUnlock(c, at) => Answer(s.(writer := false), t, c, ResultAt(s, at))
    case _ => s
  }

  function Stored(tbl: Table, id: nat, cell: Cell): Table {
    tbl.(heap := tbl.heap[id := cell])
  }

  /** A thread that looks up, marks, sweeps or lists. */
  ghost function ReaderStep(h: Key -> nat, s: State, t: nat, ok: bool): State
    requires t in s.threads
  {
    var tbl := s.tbl;
    var first := At(tbl.list, 0);
    match s.threads[t]
    case RWait(c) =>
      if !ok then Answer(s, t, c, Failed)
      else if s.writer then s
      else
        (match c.op
         case SweepOp => To(s, t, RSweep(c, first, Next(tbl.list, first), [], 0))
         case KeysOp(_, _) => To(s, t, RList(c, first, Next(tbl.list, first), [], 0))
         case _ => To(s, t, RLook(c, At(Chain(h, tbl, Address(c.op)), 0)))).(readers := s.readers + {t})
    case RLook(c, cur) =>
      if cur == NULL then To(Effect(s, c, Kind(NO_FIND)), t, RUnlock(c, |s.log|))
      else if !Readable(s, cur) then Bad(s)
      else if tbl.heap[cur].address == Address(c.op) then To(s, t, RGot(c, cur))
      else To(s, t, RLook(c, Next(Chain(h, tbl, Address(c.op)), cur)))
    case RGot(c, id) =>
      if !Readable(s, id) then Bad(s)
      else
        var cell := tbl.heap[id];
        var n := if c.op.MarkOp? then s.(tbl := Stored(tbl, id, cell.(flag := true))) else s;
        To(Effect(n, c, Kind(cell.kind)), t, RUnlock(c, |s.log|))
    case RList(c, el, tmp, found, k) =>
      if el == NULL then To(Effect(s, c, Keys(found)), t, RUnlock(c, |s.log|))
      else if !Readable(s, el) || (tmp != NULL && !Readable(s, tmp)) || !c.op.KeysOp? then Bad(s)
      else
        var cell := tbl.heap[el];
        var more := if cell.kind == c.op.kind then found + [cell.address] else found;
        if cell.kind == c.op.kind && |more| == c.op.rows then To(Effect(s, c, Keys(more)), t, RUnlock(c, |s.log|))
        else To(s, t, RList(c, tmp, if tmp == NULL then NULL else Next(tbl.list, tmp), more, k + 1))
    case RSweep(c, el, tmp, reported, k) =>
      if el == NULL then To(Effect(s, c, Keys(reported)), t, RUnlock(c, |s.log|))
      else if !Readable(s, el) || (tmp != NULL && !Readable(s, tmp)) then Bad(s)
      else
        var cell := tbl.heap[el];
        var next := if tmp == NULL then NULL else Next(tbl.list, tmp);
        if cell.flag then
          To(s.(tbl := Stored(tbl, el, cell.(flag := false))), t, RSweep(c, tmp, next, reported, k + 1))
        else To(s, t, RSweep(c, tmp, next, reported + [cell.address], k + 1))
    case RUnlock(c, at) => Answer(s.(readers := s.readers - {t}), t, c, ResultAt(s, at))
    case _ => s
  }

  /** The first step of a call. Only the device thread adds and deletes, addresses that are
      added have at most 16 bytes, only the cloud thread marks and sweeps, and the array for a
      list of addresses has room for at least one. */
  function Begin(h: Key -> nat, s: State, t: nat, op: Op): State
    requires t !in s.threads
  {
    var c := Call(s.nextCall, op, |s.log|);
    var n := s.(nextCall := s.nextCall + 1);
    match op
    case AddOp(a, _) =>
      if t == DEVICE && |a| <= MAX_ADDRESS then To(n, t, AddWalk(c, At(Chain(h, s.tbl, a), 0))) else s
    case DeleteOp(a) => if t == DEVICE then To(n, t, DelWalk(c, At(Chain(h, s.tbl, a), 0))) else s
    case DeleteAllOp => if t == DEVICE then To(n, t, AllWait(c)) else s
    case FindOp(_) => To(n, t, RWait(c))
    case MarkOp(_) => if t == CLOUD then To(n, t, RWait(c)) else s
    case SweepOp => if t == CLOUD then To(n, t, RWait(c)) else s
    case KeysOp(_, rows) => if rows > 0 then To(n, t, RWait(c)) else s
  }

  datatype Event = Begins(t: nat, op: Op) | Goes(t: nat, ok: bool, chains: seq<seq<nat>>)

  ghost function Step(h: Key -> nat, s: State, ev: Event): State {
    match ev
    case Begins(t, op) => if t in s.threads then s else Begin(h, s, t, op)
    case Goes(t, ok, chains) =>
      if t !in s.threads then s
      else if Device(s.threads[t]) then DeviceStep(h, s, t, ok, chains)
      else ReaderStep(h, s, t, ok)
  }

  /** The state after a run of steps, of any threads in any order. */
  ghost function Run(h: Key -> nat, s: State, evs: seq<Event>): State
    decreases |evs|
  {
    if evs == [] then s else Run(h, Step(h, s, evs[0]), evs[1..])
  }
}
