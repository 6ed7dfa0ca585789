/**
 Kata drop-in delivery: the controller stamps a label and a reference on the Node; the node agent
 syncs one host file, records what it applied, restarts a service, and tears everything down.
 The agent is a machine of atomic actions, so that anything may happen between two of them.
 */
module KataDelivery {
  import opened Wrappers

  type Content = string

  /** A content hash: injective on contents and never the marker that stands for "no file". */
  datatype Hash = Sha(content: Content) | AbsentMarker | Foreign(text: string)

  datatype SourceKind = ConfigMap | Secret | UnknownKind(name: string)

  datatype KataRef = KataRef(kind: SourceKind, namespace: string, name: string, key: string, restartService: string)

  datatype ObjectId = ObjectId(kind: SourceKind, namespace: string, name: string)

  /** The workload cluster as far as delivery reads it. */
  datatype Cluster = Cluster(namespaces: set<string>, objects: map<ObjectId, map<string, Content>>)

  datatype SyncAction = Write | Delete | NoOp

  datatype SyncOutcome = Wrote(hash: Hash) | Deleted | Unchanged(current: Option<Hash>)

  function DecideAction(source: Option<Content>, destHash: Option<Hash>): SyncAction {
    match source
    case Some(bytes) => if destHash == Some(Sha(bytes)) then NoOp else Write
    case None => if destHash.Some? then Delete else NoOp
  }

  function FileHash(file: Option<Content>): Option<Hash> {
    match file
    case Some(bytes) => Some(Sha(bytes))
    case None => None
  }

  function IntendedHashFor(outcome: SyncOutcome): Hash {
    match outcome
    case Wrote(h) => h
    case Unchanged(Some(h)) => h
    case _ => AbsentMarker
  }

  predicate NeedsRestart(prev: Option<Hash>, intended: Hash) {
    prev != Some(intended)
  }

  predicate IsDriftCorrection(outcome: SyncOutcome, prev: Option<Hash>) {
    outcome.Wrote? && prev == Some(outcome.hash)
  }

  /** What a sync of the host file with the content comes to. */
  function SyncResult(host: Option<Content>, content: Option<Content>): SyncOutcome {
    if FileHash(host) == FileHash(content) then Unchanged(FileHash(content))
    else
      match content
      case Some(bytes) => Wrote(Sha(bytes))
      case None => Deleted
  }

  function Fetch(cluster: Cluster, r: KataRef): Option<Content> {
    var id := ObjectId(r.kind, r.namespace, r.name);
    if id in cluster.objects && r.key in cluster.objects[id] then Some(cluster.objects[id][r.key]) else None
  }

  // ---------------------------------------------------------------------------------------------
  // The agent, one atomic action at a time
  // ---------------------------------------------------------------------------------------------

  /** Why the tick syncs: to deliver a reference it read together with the applied hash, or to tear down. */
  datatype Job = Deliver(ref: KataRef, prev: Option<Hash>) | TearDown

  datatype WriteStage = ClearTemp | FillTemp | SetMode | Rename

  datatype Pc =
    | Idle
    | HaveRef(ref: KataRef, prev: Option<Hash>)
    | HaveContent(job: Job, content: Option<Content>)
    | Writing(job: Job, bytes: Content, stage: WriteStage)
    | Unlinking(job: Job)
    | Synced(job: Job, outcome: SyncOutcome)
    | Restarting(hash: Hash)

  /** The tick found no reference and is about to take the Node's label off. */
  predicate TearDownUnderWay(pc: Pc) {
    match pc
    case HaveContent(TearDown, _) => true
    case Writing(TearDown, _, _) => true
    case Unlinking(TearDown) => true
    case Synced(TearDown, _) => true
    case _ => false
  }

  /** What the agent did to the applied annotation and to the host service, by tick. */
  datatype Event =
    | Recorded(tick: nat, hash: Hash)
    | Cleared(tick: nat)
    | Restarted(tick: nat, hash: Hash)

  datatype World = World(
    optedIn: bool, ref: Option<KataRef>, applied: Option<Hash>,
    host: Option<Content>, temp: Option<Content>,
    cluster: Cluster, tick: nat, pc: Pc, log: seq<Event>)

  /** A tick starts by reading the two annotations; without a reference it goes for the tear-down. */
  function Begin(w: World): World {
    w.(tick := w.tick + 1,
       pc := match w.ref case Some(r) => HaveRef(r, w.applied) case None => HaveContent(TearDown, None))
  }

  /** The agent's next atomic action, when it gets through. */
  function AgentNext(w: World): World
    requires w.pc != Idle
  {
    match w.pc
    case HaveRef(r, prev) =>
      if r.kind.UnknownKind? then w.(pc := Idle)
      else w.(pc := HaveContent(Deliver(r, prev), Fetch(w.cluster, r)))
    case HaveContent(job, content) =>
      (match DecideAction(content, FileHash(w.host))
       case Write => w.(pc := Writing(job, if content.Some? then content.value else "", ClearTemp))
       case Delete => w.(pc := Unlinking(job))
       case NoOp => w.(pc := Synced(job, Unchanged(FileHash(w.host)))))
    case Writing(job, bytes, stage) =>
      (match stage
       case ClearTemp => w.(temp := None, pc := Writing(job, bytes, FillTemp))
       case FillTemp => w.(temp := Some(bytes), pc := Writing(job, bytes, SetMode))
       case SetMode => w.(pc := Writing(job, bytes, Rename))
       case Rename => w.(host := w.temp, temp := None, pc := Synced(job, Wrote(Sha(bytes)))))
    case Unlinking(job) => w.(host := None, pc := Synced(job, Deleted))
    case Synced(TearDown, _) =>
      w.(optedIn := false, applied := None, log := w.log + [Cleared(w.tick)], pc := Idle)
    case Synced(Deliver(_, prev), outcome) =>
      var h := IntendedHashFor(outcome);
      if NeedsRestart(prev, h)
      then w.(applied := Some(h), log := w.log + [Recorded(w.tick, h)], pc := Restarting(h))
      else w.(pc := Idle)
    case Restarting(h) => w.(log := w.log + [Restarted(w.tick, h)], pc := Idle)
  }

  /** How far an action is from the end of its tick. */
  function Rank(pc: Pc): nat {
    match pc
    case Idle => 0
    case Restarting(_) => 1
    case Synced(_, _) => 2
    case Unlinking(_) => 3
    case Writing(_, _, stage) =>
      (match stage case Rename => 3 case SetMode => 4 case FillTemp => 5 case ClearTemp => 6)
    case HaveContent(_, _) => 7
    case HaveRef(_, _) => 8
  }

  /** The first `n` actions of the rest of a tick, as far as there are so many. */
  function Advance(w: World, n: nat): World
    decreases n
  {
    if n == 0 || w.pc == Idle then w else Advance(AgentNext(w), n - 1)
  }

  /** The rest of a tick that nothing disturbs. */
  function Finish(w: World): World
    decreases Rank(w.pc)
  {
    if w.pc == Idle then w else Finish(AgentNext(w))
  }

  function Tick(w: World): World {
    Finish(Begin(w))
  }

  function Crash(w: World): World {
    w.(pc := Idle)
  }

  // ---------------------------------------------------------------------------------------------
  // The controller
  // ---------------------------------------------------------------------------------------------

  datatype DeliveryOutcome = Disabled | Ready | SourceNotFound | TargetNamespaceMissing

  /** The object that a reference points at is there, whatever data it holds. */
  predicate Exists(cluster: Cluster, r: KataRef) {
    ObjectId(r.kind, r.namespace, r.name) in cluster.objects
  }

  /** Which of the controller's calls fail. */
  datatype DeliveryFaults = DeliveryFaults(sourceGet: bool, namespaceGet: bool, patch: Reply)

  /** Whether the controller gets as far as patching the Node. */
  predicate ReachesPatch(cluster: Cluster, kata: Option<KataRef>, faults: DeliveryFaults) {
    match kata
    case None => true
    case Some(k) =>
      !faults.sourceGet && (Exists(cluster, k) || !faults.namespaceGet)
  }

  /** Only a resolved source opts the Node in; every other case clears the reference and keeps the label. */
  function Reconciled(w: World, kata: Option<KataRef>): World {
    if kata.Some? && Exists(w.cluster, kata.value) then w.(optedIn := true, ref := kata) else w.(ref := None)
  }
}
