/** Concurrent inserts into the flow table. Any number of workers run one `Insert` each, as the atomic steps
    the code takes: look up, then update in place, or pop a slot, fill it, register it with the hash table, or
    push it back. */
module FlowRaces {
  import opened Machine
  import opened Packet
  import opened FlowStore

  /** How far an insert has come. */
  datatype Phase =
    | Starting
    | Found(slot: nat)       // the lookup hit; the slot is about to be rewritten
    | Missed
    | Holding(slot: nat)     // popped a slot
    | Filled(slot: nat)
    | Refused(slot: nat)     // the hash table refused the key; the slot is about to be pushed back
    | Updated
    | Registered(slot: nat)
    | Rejected
  {
    predicate Held() { Holding? || Filled? || Refused? }
    predicate Done() { Updated? || Registered? || Rejected? }
    /** The lookup missed. */
    predicate PastMiss() { Missed? || Held() || Registered? || Rejected? }
  }

  datatype Worker = Worker(key: FlowKey, content: Slot, at: Phase)

  datatype System = System(store: Store, workers: seq<Worker>)

  // ---------------------------------------------------------------- steps

  /** Point the key at a slot; a new key also takes hash position `p`. */
  function Pointed(s: Store, key: FlowKey, slot: nat, p: nat): Store {
    if key in s.index then s.(index := s.index[key := slot])
    else s.(index := s.index[key := slot], keyAt := s.keyAt[p := key])
  }

  /** The hash table may use position `p` for the key; a known key keeps its own. */
  predicate Allotted(s: Store, key: FlowKey, p: nat) {
    key in s.index || p !in s.keyAt
  }

  /** Registration: a known key always gets the new slot, a new one a free position, or it is refused. */
  ghost predicate Registers(s: Store, w: Worker, slot: nat, s': Store, at: Phase) {
    || (at == Registered(slot) && exists p: nat :: Allotted(s, w.key, p) && s' == Pointed(s, w.key, slot, p))
    || (at == Refused(slot) && w.key !in s.index && s' == s)
  }

  ghost predicate Moves(s: Store, w: Worker, s': Store, at: Phase) {
    match w.at
    case Starting => s' == s && at == if w.key in s.index then Found(s.index[w.key]) else Missed
    case Found(slot) => slot < |s.data| && s' == s.(data := s.data[slot := w.content]) && at == Updated
    case Missed =>
      if s.free == [] then s' == s && at == Rejected
      else s' == s.(free := s.free[..|s.free| - 1]) && at == Holding(s.free[|s.free| - 1])
    case Holding(slot) => slot < |s.data| && s' == s.(data := s.data[slot := w.content]) && at == Filled(slot)
    case Filled(slot) => Registers(s, w, slot, s', at)
    case Refused(slot) => s' == s.(free := s.free + [slot]) && at == Rejected
    case Updated => false
    case Registered(_) => false
    case Rejected => false
  }

  ghost predicate WorkerStep(s: System, s': System, i: nat) {
    && i < |s.workers| == |s'.workers|
    && s'.workers == s.workers[i := s.workers[i].(at := s'.workers[i].at)]
    && Moves(s.store, s.workers[i], s'.store, s'.workers[i].at)
  }

  ghost predicate Step(s: System, s': System) {
    exists i: nat :: WorkerStep(s, s', i)
  }

  ghost predicate IsRun(run: seq<System>) {
    |run| > 0 && forall i :: 0 <= i < |run| - 1 ==> Step(run[i], run[i + 1])
  }

  ghost predicate Initial(s: System) {
    Consistent(s.store) && forall i :: 0 <= i < |s.workers| ==> s.workers[i].at == Starting
  }

  ghost predicate AtRest(s: System) {
    forall i :: 0 <= i < |s.workers| ==> s.workers[i].at.Done()
  }

  // ---------------------------------------------------------------- where every slot is

  /** What has become of a slot: free, the slot of a key (registered by worker `giver`, or -1 if from before), in the
      hands of a worker, or lost: worker `giver` registered it and worker `to` then registered the same key. */
  datatype Where = Free | Key(key: FlowKey, giver: int) | Hand(worker: nat) | Lost(giver: int, to: nat)

  ghost predicate HasRegistered(s: System, i: int, x: nat, key: FlowKey) {
    0 <= i < |s.workers| && s.workers[i].at == Registered(x) && s.workers[i].key == key
  }

  ghost predicate Entry(s0: Store, s: System, x: nat, place: Where) {
    match place
    case Free => x in s.store.free
    case Key(k, giver) =>
      && k in s.store.index && s.store.index[k] == x
      && if giver == -1 then k in s0.index else HasRegistered(s, giver, x, k)
    case Hand(i) => i < |s.workers| && s.workers[i].at.Held() && s.workers[i].at.slot == x
    case Lost(giver, to) =>
      && giver != to && 0 <= giver < |s.workers| && HasRegistered(s, giver, x, s.workers[giver].key)
      && to < |s.workers| && s.workers[to].at.Registered? && s.workers[to].key == s.workers[giver].key
  }

  /** The account of every slot agrees with the store and the workers. */
  ghost predicate Account(s0: Store, s: System, account: seq<Where>) {
    forall x :: 0 <= x < |account| ==> Entry(s0, s, x, account[x])
  }

  ghost predicate FreeListed(s: Store, account: seq<Where>) {
    && (forall j :: 0 <= j < |s.free| ==> s.free[j] < |account| && account[s.free[j]] == Free)
    && (forall i, j :: 0 <= i < j < |s.free| ==> s.free[i] != s.free[j])
  }

  ghost predicate KeysListed(s0: Store, s: Store, account: seq<Where>) {
    && (forall k | k in s.index :: s.index[k] < |account| && account[s.index[k]].Key? && account[s.index[k]].key == k)
    && (forall k | k in s0.index :: k in s.index)
  }

  ghost predicate WorkerListed(s0: Store, s: System, account: seq<Where>, i: nat)
    requires i < |s.workers|
  {
    var w := s.workers[i];
    && (w.at.Held() ==> w.at.slot < |account| && account[w.at.slot] == Hand(i))
    && (w.at.Registered? ==>
          && w.at.slot < |account|
          && (account[w.at.slot] == Key(w.key, i) || (account[w.at.slot].Lost? && account[w.at.slot].giver == i)))
    && (w.at.Found? ==> w.at.slot < |account|)
    && (w.at.PastMiss() ==> w.key !in s0.index)
  }

  ghost predicate WorkersListed(s0: Store, s: System, account: seq<Where>) {
    forall i :: 0 <= i < |s.workers| ==> WorkerListed(s0, s, account, i)
  }

  ghost predicate Invariant(s0: Store, s: System, account: seq<Where>) {
    && |account| == |s.store.data| == |s0.data|
    && Account(s0, s, account) && FreeListed(s.store, account) && KeysListed(s0, s.store, account)
    && WorkersListed(s0, s, account)
  }

  lemma InitialAccount(s: System) returns (account: seq<Where>)
    requires Initial(s)
    ensures Invariant(s.store, s, account) && Original(s.store, account)
  {
    var n := |s.store.data|;
    assert SlotsOk(s.store);
    account := seq(n, x requires 0 <= x < n => OriginalPlace(s.store, x));
    InitialFree(s.store, account);
    InitialKeys(s.store, account);
    hide Consistent, SlotsOk, FreeListed, KeysListed, WorkersListed;
    assert WorkersListed(s.store, s, account) by { NobodyListed(s, account); }
    forall x | 0 <= x < n ensures Entry(s.store, s, x, account[x]) {
      assert account[x] == OriginalPlace(s.store, x);
    }
  }

  lemma NobodyListed(s: System, account: seq<Where>)
    requires Initial(s)
    ensures WorkersListed(s.store, s, account)
  {
    hide Consistent;
  }

  ghost predicate Original(s: Store, account: seq<Where>) {
    SlotsOk(s) && |account| == |s.data| && forall x :: 0 <= x < |account| ==> account[x] == OriginalPlace(s, x)
  }

  lemma InitialFree(s: Store, account: seq<Where>)
    requires Original(s, account)
    ensures FreeListed(s, account)
  {
    forall j | 0 <= j < |s.free| ensures s.free[j] < |account| && account[s.free[j]] == Free {
      assert s.free[j] in s.free && s.free[j] < |s.data|;
    }
  }

  lemma InitialKeys(s: Store, account: seq<Where>)
    requires Original(s, account)
    ensures KeysListed(s, s, account)
  {
    forall k | k in s.index ensures s.index[k] < |account| && account[s.index[k]].Key? && account[s.index[k]].key == k {
      assert account[s.index[k]] == OriginalPlace(s, s.index[k]);
    }
  }

  ghost function OriginalPlace(s: Store, x: nat): (r: Where)
    requires SlotsOk(s) && x < |s.data|
    ensures x in s.free ==> r == Free
    ensures x !in s.free ==> r.Key? && r.giver == -1 && r.key in s.index && s.index[r.key] == x
  {
    if x in s.free then Free
    else
      assert Owned(s, x);
      var k :| k in s.index && s.index[k] == x; Key(k, -1)
  }

  lemma ListedAt(s0: Store, s: System, account: seq<Where>, i: nat)
    requires Invariant(s0, s, account) && i < |s.workers|
    ensures WorkerListed(s0, s, account, i)
  {}

  /** Looking up, filling and rewriting change no ownership. */
  lemma QuietStep(s0: Store, s: System, s': System, account: seq<Where>, i: nat)
    requires Invariant(s0, s, account) && WorkerStep(s, s', i)
    requires s.workers[i].at.Starting? || s.workers[i].at.Found? || s.workers[i].at.Holding?
             || (s.workers[i].at.Missed? && s.store.free == []) ||
                (s.workers[i].at.Filled? && s'.workers[i].at.Refused?)
    ensures Invariant(s0, s', account)
  {
    forall j | 0 <= j < |s'.workers| ensures WorkerListed(s0, s', account, j) {
      ListedAt(s0, s, account, j);
    }
    forall x | 0 <= x < |account| ensures Entry(s0, s', x, account[x]) {
      assert Entry(s0, s, x, account[x]);
    }
  }

  lemma PopStep(s0: Store, s: System, s': System, account: seq<Where>, i: nat)
    requires Invariant(s0, s, account) && WorkerStep(s, s', i) && s.workers[i].at.Missed? && s.store.free != []
    ensures s.store.free[|s.store.free| - 1] < |account|
    ensures Invariant(s0, s', account[s.store.free[|s.store.free| - 1] := Hand(i)])
  {
    var slot := s.store.free[|s.store.free| - 1];
    assert slot < |account| && account[slot] == Free;
    var account' := account[slot := Hand(i)];
    forall j | 0 <= j < |s'.workers| ensures WorkerListed(s0, s', account', j) {
      ListedAt(s0, s, account, j);
    }
    hide WorkerListed, Entry;
    forall x | 0 <= x < |account| ensures Entry(s0, s', x, account'[x]) {
      PopEntry(s0, s, s', account, i, x);
    }
  }

  lemma PopEntry(s0: Store, s: System, s': System, account: seq<Where>, i: nat, x: nat)
    requires Invariant(s0, s, account) && WorkerStep(s, s', i) && s.workers[i].at.Missed? && s.store.free != []
    requires x < |account|
    ensures Entry(s0, s', x, if x == s.store.free[|s.store.free| - 1] then Hand(i) else account[x])
  {
    hide WorkersListed, KeysListed;
    assert Entry(s0, s, x, account[x]);
    if account[x] == Free && x != s.store.free[|s.store.free| - 1] {
      var j :| 0 <= j < |s.store.free| && s.store.free[j] == x;
      assert s'.store.free[j] == x;
    }
  }

  lemma PushStep(s0: Store, s: System, s': System, account: seq<Where>, i: nat)
    requires Invariant(s0, s, account) && WorkerStep(s, s', i) && s.workers[i].at.Refused?
    ensures s.workers[i].at.slot < |account|
    ensures Invariant(s0, s', account[s.workers[i].at.slot := Free])
  {
    ListedAt(s0, s, account, i);
    var slot := s.workers[i].at.slot;
    var account' := account[slot := Free];
    forall j | 0 <= j < |s'.workers| ensures WorkerListed(s0, s', account', j) {
      ListedAt(s0, s, account, j);
    }
    forall x | 0 <= x < |account| ensures Entry(s0, s', x, account'[x]) {
      assert Entry(s0, s, x, account[x]);
    }
  }

  /** Registering a new key. */
  lemma RegisterNew(s0: Store, s: System, s': System, account: seq<Where>, i: nat)
    requires Invariant(s0, s, account) && WorkerStep(s, s', i) && s.workers[i].at.Filled? &&
             s'.workers[i].at.Registered?
    requires s.workers[i].key !in s.store.index
    ensures s.workers[i].at.slot < |account|
    ensures Invariant(s0, s', account[s.workers[i].at.slot := Key(s.workers[i].key, i)])
  {
    ListedAt(s0, s, account, i);
    var slot, key := s.workers[i].at.slot, s.workers[i].key;
    var account' := account[slot := Key(key, i)];
    forall j | 0 <= j < |s'.workers| ensures WorkerListed(s0, s', account', j) {
      ListedAt(s0, s, account, j);
    }
    forall x | 0 <= x < |account| ensures Entry(s0, s', x, account'[x]) {
      assert Entry(s0, s, x, account[x]);
    }
  }

  /** Worker `i` about to register a key that another worker has registered since `i` missed. */
  ghost predicate Again(s0: Store, s: System, s': System, account: seq<Where>, i: nat) {
    && Invariant(s0, s, account) && WorkerStep(s, s', i)
    && s.workers[i].at.Filled? && s'.workers[i].at.Registered? && s.workers[i].key in s.store.index
  }

  /** The account once that registration has happened: the other worker's slot is lost. */
  ghost function Overtaken(s: System, account: seq<Where>, i: nat): seq<Where>
    requires i < |s.workers| && s.workers[i].at.Filled? && s.workers[i].key in s.store.index
  {
    var slot, taken := s.workers[i].at.slot, s.store.index[s.workers[i].key];
    if slot < |account| && taken < |account| && account[taken].Key?
    then account[taken := Lost(account[taken].giver, i)][slot := Key(s.workers[i].key, i)]
    else account
  }

  lemma RegisterAgain(s0: Store, s: System, s': System, account: seq<Where>, i: nat)
    requires Again(s0, s, s', account, i)
    ensures Invariant(s0, s', Overtaken(s, account, i))
  {
    ListedAt(s0, s, account, i);
    var account' := Overtaken(s, account, i);
    hide WorkerListed, Entry;
    forall j | 0 <= j < |s'.workers| ensures WorkerListed(s0, s', account', j) {
      AgainWorker(s0, s, s', account, i, j);
    }
    forall x | 0 <= x < |account| ensures Entry(s0, s', x, account'[x]) {
      AgainEntry(s0, s, s', account, i, x);
    }
  }

  lemma AgainWorker(s0: Store, s: System, s': System, account: seq<Where>, i: nat, j: nat)
    requires Again(s0, s, s', account, i) && j < |s.workers|
    ensures WorkerListed(s0, s', Overtaken(s, account, i), j)
  {
    ListedAt(s0, s, account, i);
    ListedAt(s0, s, account, j);
    var taken := s.store.index[s.workers[i].key];
    assert Entry(s0, s, taken, account[taken]);
  }

  lemma AgainEntry(s0: Store, s: System, s': System, account: seq<Where>, i: nat, x: nat)
    requires Again(s0, s, s', account, i) && x < |account|
    ensures |Overtaken(s, account, i)| == |account| && Entry(s0, s', x, Overtaken(s, account, i)[x])
  {
    ListedAt(s0, s, account, i);
    var taken := s.store.index[s.workers[i].key];
    assert Entry(s0, s, taken, account[taken]) && Entry(s0, s, x, account[x]);
  }

  /** The account after a step of worker `i`. */
  ghost function Next(s: System, s': System, account: seq<Where>, i: nat): (r: seq<Where>)
    requires i < |s.workers| == |s'.workers|
    ensures |r| == |account|
  {
    var w := s.workers[i];
    if w.at.Missed? && s.store.free != [] && s.store.free[|s.store.free| - 1] < |account|
    then account[s.store.free[|s.store.free| - 1] := Hand(i)]
    else if w.at.Refused? && w.at.slot < |account| then account[w.at.slot := Free]
    else if w.at.Filled? && s'.workers[i].at.Registered? && w.at.slot < |account| then
      if w.key in s.store.index then Overtaken(s, account, i) else account[w.at.slot := Key(w.key, i)]
    else account
  }

  lemma StepKeeps(s0: Store, s: System, s': System, account: seq<Where>, i: nat)
    requires Invariant(s0, s, account) && WorkerStep(s, s', i)
    ensures Invariant(s0, s', Next(s, s', account, i))
  {
    var w := s.workers[i];
    if w.at.Missed? && s.store.free != [] {
      PopStep(s0, s, s', account, i);
    } else if w.at.Refused? {
      PushStep(s0, s, s', account, i);
    } else if w.at.Filled? && s'.workers[i].at.Registered? {
      if w.key in s.store.index {
        RegisterAgain(s0, s, s', account, i);
        ListedAt(s0, s, account, i);
      } else {
        RegisterNew(s0, s, s', account, i);
      }
    } else {
      QuietStep(s0, s, s', account, i);
    }
    hide Invariant;
  }

  // ---------------------------------------------------------------- what every slot holds

  /** Worker `i` has written what slot `x` holds, for key `k`. */
  ghost predicate Wrote(s: System, k: FlowKey, x: nat, i: nat) {
    && i < |s.workers| && x < |s.store.data| && (s.workers[i].at.Registered? || s.workers[i].at.Updated?)
    && s.workers[i].key == k && s.workers[i].content == s.store.data[x]
  }

  /** A key's slot holds what it held at first, or what a worker has written for the key. */
  ghost predicate HoldsItsOwn(s0: Store, s: System, x: nat, k: FlowKey, giver: int) {
    || (&& giver == -1 && k in s0.index && s0.index[k] == x && x < |s0.data| && x < |s.store.data|
        && s.store.data[x] == s0.data[x])
    || exists i: nat :: Wrote(s, k, x, i)
  }

  /** The slot a worker has found still is, or was, its key's. */
  ghost predicate FoundFor(s: System, account: seq<Where>, x: nat, key: FlowKey) {
    && x < |account|
    && match account[x]
       case Key(k, _) => k == key
       case Lost(giver, _) => 0 <= giver < |s.workers| && s.workers[giver].key == key
       case _ => false
  }

  ghost predicate SlotContent(s0: Store, s: System, account: seq<Where>, x: nat)
    requires x < |account|
  {
    account[x].Key? ==> HoldsItsOwn(s0, s, x, account[x].key, account[x].giver)
  }

  ghost predicate WorkerContent(s: System, account: seq<Where>, i: nat)
    requires i < |s.workers|
  {
    var w := s.workers[i];
    && (w.at.Filled? || w.at.Refused? ==> w.at.slot < |s.store.data| && s.store.data[w.at.slot] == w.content)
    && (w.at.Found? ==> FoundFor(s, account, w.at.slot, w.key))
    && (w.at.Found? || w.at.Updated? || w.at.Registered? ==> w.key in s.store.index)
  }

  ghost predicate Contents(s0: Store, s: System, account: seq<Where>) {
    && (forall x :: 0 <= x < |account| ==> SlotContent(s0, s, account, x))
    && (forall i :: 0 <= i < |s.workers| ==> WorkerContent(s, account, i))
  }

  lemma InitialContents(s: System, account: seq<Where>)
    requires Initial(s) && Original(s.store, account)
    ensures Contents(s.store, s, account)
  {
    hide Consistent;
    forall x | 0 <= x < |account| ensures SlotContent(s.store, s, account, x) {
      assert account[x] == OriginalPlace(s.store, x);
    }
  }

  /** A step leaves alone the content of every slot but the one it writes. */
  lemma WrittenSlot(s0: Store, s: System, s': System, account: seq<Where>, i: nat, x: nat)
    requires Invariant(s0, s, account) && WorkerStep(s, s', i) && x < |account|
    ensures |s'.store.data| == |s.store.data| == |account|
    ensures s'.store.data[x] == if (s.workers[i].at.Found? || s.workers[i].at.Holding?) && s.workers[i].at.slot == x
                                then s.workers[i].content else s.store.data[x]
  {}

  lemma StillWrote(s: System, s': System, i: nat, k: FlowKey, x: nat, j: nat)
    requires WorkerStep(s, s', i) && Wrote(s, k, x, j) && x < |s'.store.data| && s'.store.data[x] == s.store.data[x]
    ensures Wrote(s', k, x, j)
  {}

  lemma SlotStep(s0: Store, s: System, s': System, account: seq<Where>, i: nat, x: nat)
    requires Invariant(s0, s, account) && Contents(s0, s, account) && WorkerStep(s, s', i) && x < |account|
    ensures SlotContent(s0, s', Next(s, s', account, i), x)
  {
    ListedAt(s0, s, account, i);
    WrittenSlot(s0, s, s', account, i, x);
    assert SlotContent(s0, s, account, x) && WorkerContent(s, account, i);
    var w, next := s.workers[i], Next(s, s', account, i)[x];
    if next.Key? {
      if account[x] == next {
        if w.at.Found? && w.at.slot == x {
          assert Wrote(s', next.key, x, i);
        } else {
          assert !(w.at.Holding? && w.at.slot == x);
          if j: nat :| Wrote(s, next.key, x, j) {
            StillWrote(s, s', i, next.key, x, j);
          }
        }
      } else {
        assert Wrote(s', next.key, x, i);
      }
    }
  }

  lemma FoundStep(s0: Store, s: System, s': System, account: seq<Where>, i: nat, x: nat, key: FlowKey)
    requires Invariant(s0, s, account) && WorkerStep(s, s', i) && FoundFor(s, account, x, key)
    ensures FoundFor(s', Next(s, s', account, i), x, key)
  {
    ListedAt(s0, s, account, i);
    assert Entry(s0, s, x, account[x]);
  }

  lemma WorkerContentStep(s0: Store, s: System, s': System, account: seq<Where>, i: nat, j: nat)
    requires Invariant(s0, s, account) && Contents(s0, s, account) && WorkerStep(s, s', i) && j < |s.workers|
    ensures WorkerContent(s', Next(s, s', account, i), j)
  {
    ListedAt(s0, s, account, i);
    ListedAt(s0, s, account, j);
    assert WorkerContent(s, account, i) && WorkerContent(s, account, j);
    var w, v := s'.workers[j], s.workers[j];
    if w.at.Filled? || w.at.Refused? {
      WrittenSlot(s0, s, s', account, i, w.at.slot);
    }
    if w.at.Found? {
      if j == i {
        assert account[w.at.slot].Key? && account[w.at.slot].key == w.key;
      }
      FoundStep(s0, s, s', account, i, w.at.slot, w.key);
    }
  }

  lemma ContentsStep(s0: Store, s: System, s': System, account: seq<Where>, i: nat)
    requires Invariant(s0, s, account) && Contents(s0, s, account) && WorkerStep(s, s', i)
    ensures Contents(s0, s', Next(s, s', account, i))
  {
    hide Invariant, SlotContent, WorkerContent, Next;
    forall x | 0 <= x < |account| ensures SlotContent(s0, s', Next(s, s', account, i), x) {
      SlotStep(s0, s, s', account, i, x);
    }
    forall j | 0 <= j < |s'.workers| ensures WorkerContent(s', Next(s, s', account, i), j) {
      WorkerContentStep(s0, s, s', account, i, j);
    }
  }

  lemma {:induction false} RunKeeps(run: seq<System>, n: nat) returns (account: seq<Where>)
    requires IsRun(run) && Initial(run[0]) && n < |run|
    ensures Invariant(run[0].store, run[n], account) && Contents(run[0].store, run[n], account)
  {
    hide Invariant, Initial, Step, Contents;
    if n == 0 {
      account := InitialAccount(run[0]);
      InitialContents(run[0], account);
    } else {
      var before := RunKeeps(run, n - 1);
      assert Step(run[n - 1], run[n - 1 + 1]);
      var i := Mover(run[n - 1], run[n]);
      StepKeeps(run[0].store, run[n - 1], run[n], before, i);
      ContentsStep(run[0].store, run[n - 1], run[n], before, i);
      account := Next(run[n - 1], run[n], before, i);
    }
  }

  lemma Mover(s: System, s': System) returns (i: nat)
    requires Step(s, s')
    ensures WorkerStep(s, s', i)
  {
    i :| WorkerStep(s, s', i);
  }

  /** Over every interleaving of any number of inserts, lost slots or not: when all have finished, every key
      that was there or was registered is there, and reads as it did before, if nobody inserted it, or as one
      of its own inserts wrote it. */
  lemma RacesWriteTheirOwn(run: seq<System>)
    requires IsRun(run) && Initial(run[0]) && AtRest(run[|run| - 1])
    ensures var s0, s := run[0].store, run[|run| - 1];
            && (forall k | k in s0.index :: k in s.store.index)
            && (forall i :: 0 <= i < |s.workers| && !s.workers[i].at.Rejected? ==> s.workers[i].key in s.store.index)
            && forall k | k in s.store.index ::
                 || (k in s0.index && s0.index[k] == s.store.index[k] && s0.index[k] < |s0.data| == |s.store.data|
                     && s.store.data[s.store.index[k]] == s0.data[s0.index[k]])
                 || exists i: nat :: Wrote(s, k, s.store.index[k], i)
  {
    var n := |run| - 1;
    var account := RunKeeps(run, n);
    var s0, s := run[0].store, run[n];
    hide IsRun, Initial;
    forall i | 0 <= i < |s.workers| && !s.workers[i].at.Rejected? ensures s.workers[i].key in s.store.index {
      assert WorkerContent(s, account, i);
    }
    forall k | k in s.store.index
      ensures || (k in s0.index && s0.index[k] == s.store.index[k] && s0.index[k] < |s0.data| == |s.store.data|
                  && s.store.data[s.store.index[k]] == s0.data[s0.index[k]])
              || exists i: nat :: Wrote(s, k, s.store.index[k], i)
    {
      assert SlotContent(s0, s, account, s.store.index[k]);
    }
  }

  // ---------------------------------------------------------------- exactly when a slot is lost

  /** Two workers missed on the same key and both registered it. */
  ghost predicate SameKeyTwice(s: System, i: nat, j: nat) {
    && i < |s.workers| && j < |s.workers| && i != j
    && s.workers[i].at.Registered? && s.workers[j].at.Registered? && s.workers[i].key == s.workers[j].key
  }

  ghost predicate Doubled(s: System) {
    exists i: nat, j: nat :: SameKeyTwice(s, i, j)
  }

  lemma LostIffDoubled(s0: Store, s: System, account: seq<Where>)
    requires Invariant(s0, s, account)
    ensures (exists x :: 0 <= x < |account| && account[x].Lost?) <==> Doubled(s)
  {
    if x :| 0 <= x < |account| && account[x].Lost? {
      assert Entry(s0, s, x, account[x]);
      assert SameKeyTwice(s, account[x].giver, account[x].to);
    }
    if Doubled(s) {
      var i: nat, j: nat :| SameKeyTwice(s, i, j);
      ListedAt(s0, s, account, i);
      ListedAt(s0, s, account, j);
      var x, y := s.workers[i].at.slot, s.workers[j].at.slot;
      assert Entry(s0, s, x, account[x]) && Entry(s0, s, y, account[y]);
      assert account[x].Lost? || account[y].Lost?;
    }
  }

  lemma SoundIffNothingLost(s0: Store, s: System, account: seq<Where>)
    requires Invariant(s0, s, account) && AtRest(s)
    ensures SlotsOk(s.store) <==> forall x :: 0 <= x < |account| ==> !account[x].Lost?
  {
    if x :| 0 <= x < |account| && account[x].Lost? {
      assert x !in s.store.free;
      assert !Owned(s.store, x);
    } else {
      forall x | 0 <= x < |s.store.data| ensures x in s.store.free || Owned(s.store, x) {
        assert Entry(s0, s, x, account[x]);
        if account[x].Key? {
          assert s.store.index[account[x].key] == x;
        }
      }
      RestIsSound(s0, s, account);
    }
  }

  lemma RestIsSound(s0: Store, s: System, account: seq<Where>)
    requires Invariant(s0, s, account)
    requires forall x :: 0 <= x < |s.store.data| ==> x in s.store.free || Owned(s.store, x)
    ensures SlotsOk(s.store)
  {
    forall k | k in s.store.index ensures s.store.index[k] !in s.store.free && s.store.index[k] < |s.store.data| {
      assert account[s.store.index[k]].Key?;
    }
  }

  /** Over every interleaving of any number of inserts: when all have finished, live slots and free list are a partition
      of the slot array if and only if no two workers both missed on one key and both registered it. */
  lemma RacesSoundIff(run: seq<System>)
    requires IsRun(run) && Initial(run[0]) && AtRest(run[|run| - 1])
    ensures SlotsOk(run[|run| - 1].store) <==> !Doubled(run[|run| - 1])
  {
    hide Invariant, SlotsOk;
    var n := |run| - 1;
    var account := RunKeeps(run, n);
    LostIffDoubled(run[0].store, run[n], account);
    SoundIffNothingLost(run[0].store, run[n], account);
  }

  lemma {:induction false} KeysStay(run: seq<System>, n: nat)
    requires IsRun(run) && n < |run|
    ensures |run[n].workers| == |run[0].workers|
    ensures forall i :: 0 <= i < |run[0].workers| ==> run[n].workers[i].key == run[0].workers[i].key
  {
    if n > 0 {
      hide Moves;
      KeysStay(run, n - 1);
      assert Step(run[n - 1], run[n - 1 + 1]);
    }
  }

  /** Inserts of pairwise distinct keys never lose a slot, however they interleave. */
  lemma DistinctKeysAreSafe(run: seq<System>)
    requires IsRun(run) && Initial(run[0]) && AtRest(run[|run| - 1])
    requires forall i, j :: 0 <= i < j < |run[0].workers| ==> run[0].workers[i].key != run[0].workers[j].key
    ensures SlotsOk(run[|run| - 1].store)
  {
    hide Step, SlotsOk, Initial, AtRest;
    RacesSoundIff(run);
    KeysStay(run, |run| - 1);
  }

  /** Two workers in given phases. */
  ghost function Two(store: Store, w: Worker, v: Worker, p: Phase, q: Phase): System {
    System(store, [w.(at := p), v.(at := q)])
  }

  lemma FirstMoves(store: Store, w: Worker, v: Worker, p: Phase, q: Phase, store': Store, p': Phase)
    requires Moves(store, w.(at := p), store', p')
    ensures Step(Two(store, w, v, p, q), Two(store', w, v, p', q))
  {
    hide Moves;
    assert WorkerStep(Two(store, w, v, p, q), Two(store', w, v, p', q), 0);
  }

  lemma SecondMoves(store: Store, w: Worker, v: Worker, p: Phase, q: Phase, store': Store, q': Phase)
    requires Moves(store, v.(at := q), store', q')
    ensures Step(Two(store, w, v, p, q), Two(store', w, v, p, q'))
  {
    hide Moves;
    assert WorkerStep(Two(store, w, v, p, q), Two(store', w, v, p, q'), 1);
  }

  /** Both look up and miss, both pop, both fill. */
  lemma BothFill(store: Store, w: Worker, v: Worker) returns (run: seq<System>, t: Store, a: nat, b: nat)
    requires w.key == v.key && w.key !in store.index && |store.free| >= 2 && FreeInRange(store)
    ensures |run| == 7 && IsRun(run) && run[0] == Two(store, w, v, Starting, Starting) &&
            run[6] == Two(t, w, v, Filled(a), Filled(b))
    ensures t.index == store.index && t.keyAt == store.keyAt && |t.data| == |store.data|
  {
    hide Step, Two;
    var n := |store.free|;
    a, b := store.free[n - 1], store.free[n - 2];
    var t1 := store.(free := store.free[..n - 1]);
    var t2 := store.(free := store.free[..n - 2]);
    assert t2 == t1.(free := t1.free[..|t1.free| - 1]);
    var t3 := t2.(data := t2.data[a := w.content]);
    t := t3.(data := t3.data[b := v.content]);
    FirstMoves(store, w, v, Starting, Starting, store, Missed);
    SecondMoves(store, w, v, Missed, Starting, store, Missed);
    FirstMoves(store, w, v, Missed, Missed, t1, Holding(a));
    SecondMoves(t1, w, v, Holding(a), Missed, t2, Holding(b));
    FirstMoves(t2, w, v, Holding(a), Holding(b), t3, Filled(a));
    SecondMoves(t3, w, v, Filled(a), Holding(b), t, Filled(b));
    hide Moves;
    run := [Two(store, w, v, Starting, Starting), Two(store, w, v, Missed, Starting), Two(store, w, v, Missed, Missed),
            Two(t1, w, v, Holding(a), Missed), Two(t2, w, v, Holding(a), Holding(b)),
            Two(t3, w, v, Filled(a), Holding(b)), Two(t, w, v, Filled(a), Filled(b))];
  }

  /** And it does happen: from every consistent table with two free slots and an unused hash position, two
      inserts of any new key can be scheduled so that a slot is lost for good. */
  lemma LossIsReachable(store: Store, w: Worker, v: Worker, p: nat) returns (run: seq<System>)
    requires Consistent(store) && w.key == v.key && w.key !in store.index && |store.free| >= 2
    requires p !in store.keyAt
    ensures IsRun(run) && run[0] == Two(store, w, v, Starting, Starting)
    ensures AtRest(run[|run| - 1]) && !SlotsOk(run[|run| - 1].store)
  {
    BoundedByConsistency(store);
    hide Consistent, SlotsOk, FreeInRange;
    var first, t, a, b := BothFill(store, w, v);
    var t1 := Pointed(t, w.key, a, p);
    var t2 := Pointed(t1, w.key, b, p);
    assert Registers(t, w.(at := Filled(a)), a, t1, Registered(a));
    assert Registers(t1, v.(at := Filled(b)), b, t2, Registered(b));
    FirstMoves(t, w, v, Filled(a), Filled(b), t1, Registered(a));
    SecondMoves(t1, w, v, Registered(a), Filled(b), t2, Registered(b));
    hide Step, Moves, Registers;
    run := first + [Two(t1, w, v, Registered(a), Filled(b)), Two(t2, w, v, Registered(a), Registered(b))];
    assert SameKeyTwice(run[8], 0, 1);
    RacesSoundIff(run);
  }
}
