/** Creating and removing the bootstrap, infrastructure and Machine objects of one scheduled machine. */
module CapiObjects {
  import opened Wrappers
  import opened ApiCalls

  /** An embedded resource as the user wrote it. */
  datatype Embedded = Embedded(apiVersion: Option<string>, kind: Option<string>, metadataAllowed: bool)

  /** The checks whose content does not matter here are kept as their results. */
  datatype MachineSpec = MachineSpec(
    bootstrap: Embedded, infrastructure: Embedded,
    clusterNameValid: bool, killIfValid: bool, templateAllowed: bool, uid: Option<string>)

  const CAPI_GROUP := "cluster.x-k8s.io"
  const CAPI_RESOURCE_MACHINES := "machines"
  const ALLOWED_BOOTSTRAP_API_GROUPS: seq<string> := ["bootstrap.cluster.x-k8s.io", "k0smotron.io"]
  const ALLOWED_INFRASTRUCTURE_API_GROUPS: seq<string> := ["infrastructure.cluster.x-k8s.io", "k0smotron.io"]

  const MACHINE := Id(CAPI_GROUP, CAPI_RESOURCE_MACHINES)

  /** The part before the last slash; a version without a slash belongs to the core group. */
  function GroupOf(apiVersion: string): string {
    if |apiVersion| == 0 then ""
    else if apiVersion[|apiVersion| - 1] == '/' then apiVersion[..|apiVersion| - 1]
    else GroupOf(apiVersion[..|apiVersion| - 1])
  }

  function ToLower(c: char): char {
    if 'A' <= c <= 'Z' then (c as int + 32) as char else c
  }

  function ResourcePlural(kind: string): string {
    seq(|kind|, i requires 0 <= i < |kind| => ToLower(kind[i])) + "s"
  }

  function IdOf(e: Embedded): Option<Id> {
    match (e.apiVersion, e.kind)
    case (Some(apiVersion), Some(kind)) => Some(Id(GroupOf(apiVersion), ResourcePlural(kind)))
    case _ => None
  }

  predicate GroupAllowed(apiVersion: string, allowed: seq<string>) {
    '/' in apiVersion && GroupOf(apiVersion) in allowed
  }

  /** What is checked before the access reviews. */
  function CheckFields(spec: MachineSpec): Option<CallError> {
    if IdOf(spec.bootstrap).None? || IdOf(spec.infrastructure).None? then Some(InvalidConfig)
    else if !spec.clusterNameValid || !spec.killIfValid then Some(ValidationError)
    else if !GroupAllowed(spec.bootstrap.apiVersion.value, ALLOWED_BOOTSTRAP_API_GROUPS)
         || !GroupAllowed(spec.infrastructure.apiVersion.value, ALLOWED_INFRASTRUCTURE_API_GROUPS)
      then Some(ValidationError)
    else None
  }

  /** What is checked after them. */
  function CheckMetadata(spec: MachineSpec): Option<CallError> {
    if !spec.templateAllowed || !spec.bootstrap.metadataAllowed || !spec.infrastructure.metadataAllowed
      then Some(ValidationError)
    else if spec.uid.None? then Some(InvalidConfig)
    else None
  }

  function Reviews(b: Id, i: Id): seq<Call> {
    [Review(b), Review(i), Review(MACHINE)]
  }

  function Creates(b: Id, i: Id): seq<Call> {
    [Create(b), Create(i), Create(MACHINE)]
  }

  function Deletes(spec: MachineSpec): seq<Call> {
    [Delete(MACHINE)] + DeleteIfNamed(spec.bootstrap) + DeleteIfNamed(spec.infrastructure)
  }

  function DeleteIfNamed(e: Embedded): seq<Call> {
    match IdOf(e) case Some(id) => [Delete(id)] case None => []
  }

  function Added(spec: MachineSpec, s: Store, replies: seq<Reply>): Outcome {
    if CheckFields(spec).Some? then Outcome(s, replies, CheckFields(spec))
    else
      var b, i := IdOf(spec.bootstrap).value, IdOf(spec.infrastructure).value;
      var reviewed := Exec(s, replies, Reviews(b, i));
      if reviewed.failure.Some? then reviewed
      else if CheckMetadata(spec).Some? then Outcome(reviewed.store, reviewed.replies, CheckMetadata(spec))
      else Exec(reviewed.store, reviewed.replies, Creates(b, i))
  }

  function Removed(spec: MachineSpec, s: Store, replies: seq<Reply>): Outcome {
    Exec(s, replies, Deletes(spec))
  }

  // ---------------------------------------------------------------------------------------------
  // The two operations
  // ---------------------------------------------------------------------------------------------

  method AddMachineToCluster(spec: MachineSpec, c: Controller) returns (failure: Option<CallError>)
    modifies c
    ensures Outcome(c.store, c.replies, failure) == Added(spec, old(c.store), old(c.replies))
  {
    if spec.bootstrap.apiVersion.None? || spec.bootstrap.kind.None? {
      return Some(InvalidConfig);
    }
    if spec.infrastructure.apiVersion.None? || spec.infrastructure.kind.None? {
      return Some(InvalidConfig);
    }
    if !spec.clusterNameValid || !spec.killIfValid {
      return Some(ValidationError);
    }
    if !GroupAllowed(spec.bootstrap.apiVersion.value, ALLOWED_BOOTSTRAP_API_GROUPS) {
      return Some(ValidationError);
    }
    if !GroupAllowed(spec.infrastructure.apiVersion.value, ALLOWED_INFRASTRUCTURE_API_GROUPS) {
      return Some(ValidationError);
    }
    var b, i := IdOf(spec.bootstrap).value, IdOf(spec.infrastructure).value;
    failure := ReviewAll(b, i, c);
    if failure.Some? {
      return;
    }
    if !spec.templateAllowed || !spec.bootstrap.metadataAllowed || !spec.infrastructure.metadataAllowed {
      return Some(ValidationError);
    }
    if spec.uid.None? {
      return Some(InvalidConfig);
    }
    failure := CreateAll(b, i, c);
  }

  method ReviewAll(b: Id, i: Id, c: Controller) returns (failure: Option<CallError>)
    modifies c
    ensures Outcome(c.store, c.replies, failure) == Exec(old(c.store), old(c.replies), Reviews(b, i))
  {
    ExecThree(c.store, c.replies, Review(b), Review(i), Review(MACHINE));
    failure := c.EnsureCanCreate(b);
    if failure.Some? {
      return;
    }
    failure := c.EnsureCanCreate(i);
    if failure.Some? {
      return;
    }
    failure := c.EnsureCanCreate(MACHINE);
  }

  method CreateAll(b: Id, i: Id, c: Controller) returns (failure: Option<CallError>)
    modifies c
    ensures Outcome(c.store, c.replies, failure) == Exec(old(c.store), old(c.replies), Creates(b, i))
  {
    ExecThree(c.store, c.replies, Create(b), Create(i), Create(MACHINE));
    failure := c.CreateDynamicResource(b);
    if failure.Some? {
      return;
    }
    failure := c.CreateDynamicResource(i);
    if failure.Some? {
      return;
    }
    failure := c.CreateDynamicResource(MACHINE);
  }

  method RemoveMachineFromCluster(spec: MachineSpec, c: Controller) returns (failure: Option<CallError>)
    modifies c
    ensures Outcome(c.store, c.replies, failure) == Removed(spec, old(c.store), old(c.replies))
  {
    ghost var rest := DeleteIfNamed(spec.bootstrap) + DeleteIfNamed(spec.infrastructure);
    assert Deletes(spec) == [Delete(MACHINE)] + rest;
    ExecCons(c.store, c.replies, Delete(MACHINE), rest);
    failure := c.DeleteDynamicResource(MACHINE);
    if failure.Some? {
      return;
    }
    ExecConcat(c.store, c.replies, DeleteIfNamed(spec.bootstrap), DeleteIfNamed(spec.infrastructure));
    failure := DeleteEmbedded(spec.bootstrap, c);
    if failure.Some? {
      return;
    }
    failure := DeleteEmbedded(spec.infrastructure, c);
  }

  method DeleteEmbedded(e: Embedded, c: Controller) returns (failure: Option<CallError>)
    modifies c
    ensures Outcome(c.store, c.replies, failure) == Exec(old(c.store), old(c.replies), DeleteIfNamed(e))
  {
    if e.apiVersion.None? || e.kind.None? {
      return None;
    }
    ExecOneCall(c.store, c.replies, Delete(IdOf(e).value));
    failure := c.DeleteDynamicResource(IdOf(e).value);
  }

  lemma ExecOneCall(s: Store, replies: seq<Reply>, call: Call)
    ensures Exec(s, replies, [call]) == ExecOne(s, replies, call)
  {
    var first := ExecOne(s, replies, call);
    assert Exec(first.store, first.replies, []) == Outcome(first.store, first.replies, None);
  }

  lemma ExecThree(s: Store, replies: seq<Reply>, c0: Call, c1: Call, c2: Call)
    ensures Exec(s, replies, [c0, c1, c2])
         == var r0 := ExecOne(s, replies, c0);
            if r0.failure.Some? then r0
            else
              var r1 := ExecOne(r0.store, r0.replies, c1);
              if r1.failure.Some? then r1 else ExecOne(r1.store, r1.replies, c2)
  {
    var r0 := ExecOne(s, replies, c0);
    assert [c0, c1, c2] == [c0] + [c1, c2];
    ExecCons(s, replies, c0, [c1, c2]);
    assert [c1, c2] == [c1] + [c2];
    ExecCons(r0.store, r0.replies, c1, [c2]);
    var r1 := ExecOne(r0.store, r0.replies, c1);
    ExecOneCall(r1.store, r1.replies, c2);
  }

  // ---------------------------------------------------------------------------------------------
  // Runs
  // ---------------------------------------------------------------------------------------------

  datatype Op = Add(replies: seq<Reply>) | Remove(replies: seq<Reply>)

  function Apply(spec: MachineSpec, s: Store, op: Op): Outcome {
    match op
    case Add(replies) => Added(spec, s, replies)
    case Remove(replies) => Removed(spec, s, replies)
  }

  /** The store after a sequence of adds and removes, each cut off wherever its replies end. */
  function Run(spec: MachineSpec, s: Store, ops: seq<Op>): Store
    decreases |ops|
  {
    if |ops| == 0 then s else Apply(spec, Run(spec, s, ops[..|ops| - 1]), ops[|ops| - 1]).store
  }

  ghost predicate Named(spec: MachineSpec) {
    IdOf(spec.bootstrap).Some? && IdOf(spec.infrastructure).Some?
  }

  /** A live Machine has its bootstrap and infrastructure objects. */
  ghost predicate Linked(spec: MachineSpec, s: Store) {
    MACHINE in s.live ==>
      && Named(spec)
      && IdOf(spec.bootstrap).value in s.live && IdOf(spec.infrastructure).value in s.live
  }

  /** Nothing lives but the machine's own three objects. */
  ghost predicate OwnObjectsOnly(spec: MachineSpec, s: Store) {
    forall id :: id in s.live ==>
      id == MACHINE || Some(id) == IdOf(spec.bootstrap) || Some(id) == IdOf(spec.infrastructure)
  }

  /** The allowed groups keep the embedded objects apart from the Machine. */
  lemma AllowedIsNotMachine(spec: MachineSpec)
    requires CheckFields(spec).None?
    ensures IdOf(spec.bootstrap).value != MACHINE && IdOf(spec.infrastructure).value != MACHINE
  {
    assert |CAPI_GROUP| == 16;
    assert |ALLOWED_BOOTSTRAP_API_GROUPS[0]| == 26 && |ALLOWED_BOOTSTRAP_API_GROUPS[1]| == 12;
    assert |ALLOWED_INFRASTRUCTURE_API_GROUPS[0]| == 31 && |ALLOWED_INFRASTRUCTURE_API_GROUPS[1]| == 12;
  }

  lemma ReviewsChangeNothing(s: Store, replies: seq<Reply>, b: Id, i: Id)
    ensures Exec(s, replies, Reviews(b, i)).store == s
  {
    ExecKeeps(s, replies, Reviews(b, i), (t: Store) => t == s);
  }

  /** Creation in this order puts the Machine last. */
  lemma CreatesInOrder(s: Store, replies: seq<Reply>, b: Id, i: Id)
    requires b != MACHINE && i != MACHINE
    ensures var after := Exec(s, replies, Creates(b, i)).store;
            && s.live <= after.live <= s.live + {b, i, MACHINE}
            && (MACHINE in after.live ==> MACHINE in s.live || {b, i} <= after.live)
            && (i in after.live ==> i in s.live || b in after.live)
  {
    ExecThree(s, replies, Create(b), Create(i), Create(MACHINE));
  }

  lemma AddKeepsLinked(spec: MachineSpec, s: Store, replies: seq<Reply>)
    requires Linked(spec, s) && OwnObjectsOnly(spec, s)
    ensures Linked(spec, Added(spec, s, replies).store) && OwnObjectsOnly(spec, Added(spec, s, replies).store)
  {
    if CheckFields(spec).None? {
      var b, i := IdOf(spec.bootstrap).value, IdOf(spec.infrastructure).value;
      var reviewed := Exec(s, replies, Reviews(b, i));
      ReviewsChangeNothing(s, replies, b, i);
      AllowedIsNotMachine(spec);
      CreatesInOrder(reviewed.store, reviewed.replies, b, i);
    }
  }

  /** The Machine goes first, so what is deleted after it is no longer referenced. */
  lemma RemoveKeepsLinked(spec: MachineSpec, s: Store, replies: seq<Reply>)
    requires Linked(spec, s) && OwnObjectsOnly(spec, s)
    ensures Linked(spec, Removed(spec, s, replies).store) && OwnObjectsOnly(spec, Removed(spec, s, replies).store)
  {
    var rest := DeleteIfNamed(spec.bootstrap) + DeleteIfNamed(spec.infrastructure);
    assert Deletes(spec) == [Delete(MACHINE)] + rest;
    ExecCons(s, replies, Delete(MACHINE), rest);
    var first := ExecOne(s, replies, Delete(MACHINE));
    if first.failure.None? {
      assert MACHINE !in first.store.live;
      OnlyDeletes(first.store, first.replies, rest);
    }
  }

  lemma OnlyDeletes(s: Store, replies: seq<Reply>, calls: seq<Call>)
    requires forall k :: 0 <= k < |calls| ==> calls[k].Delete?
    ensures Exec(s, replies, calls).store.live <= s.live
  {
    ExecKeeps(s, replies, calls, (t: Store) => t.live <= s.live);
  }

  /** At every crash point of every sequence of adds and removes, a live Machine has both its objects. */
  lemma {:induction false} MachineIsAlwaysLinked(spec: MachineSpec, s: Store, ops: seq<Op>)
    requires Linked(spec, s) && OwnObjectsOnly(spec, s)
    ensures Linked(spec, Run(spec, s, ops)) && OwnObjectsOnly(spec, Run(spec, s, ops))
    decreases |ops|
  {
    if |ops| > 0 {
      var before := ops[..|ops| - 1];
      MachineIsAlwaysLinked(spec, s, before);
      match ops[|ops| - 1]
      case Add(replies) => AddKeepsLinked(spec, Run(spec, s, before), replies);
      case Remove(replies) => RemoveKeepsLinked(spec, Run(spec, s, before), replies);
    }
  }

  /** At every crash point of an add, what is new is bootstrap first, then infrastructure, then the Machine. */
  lemma AddIsOrdered(spec: MachineSpec, s: Store, replies: seq<Reply>)
    requires CheckFields(spec).None?
    ensures var b, i, t := IdOf(spec.bootstrap).value, IdOf(spec.infrastructure).value, Added(spec, s, replies).store;
            && (i in t.live && i !in s.live ==> b in t.live)
            && (MACHINE in t.live && MACHINE !in s.live ==> b in t.live && i in t.live)
  {
    var b, i := IdOf(spec.bootstrap).value, IdOf(spec.infrastructure).value;
    var reviewed := Exec(s, replies, Reviews(b, i));
    ReviewsChangeNothing(s, replies, b, i);
    AllowedIsNotMachine(spec);
    CreatesInOrder(reviewed.store, reviewed.replies, b, i);
    hide CheckFields;
    hide Exec;
    hide IdOf;
  }

  /** At every crash point of a remove, what is gone is the Machine first, then bootstrap, then infrastructure. */
  lemma RemoveIsOrdered(spec: MachineSpec, s: Store, replies: seq<Reply>)
    requires Named(spec) && IdOf(spec.bootstrap) != IdOf(spec.infrastructure)
    requires MACHINE !in {IdOf(spec.bootstrap).value, IdOf(spec.infrastructure).value}
    ensures var b, i := IdOf(spec.bootstrap).value, IdOf(spec.infrastructure).value;
            var t := Removed(spec, s, replies).store;
            && (MACHINE in s.live && MACHINE in t.live ==> t == s)
            && (b in s.live && b in t.live && i in s.live ==> i in t.live)
  {
    var b, i := IdOf(spec.bootstrap).value, IdOf(spec.infrastructure).value;
    assert Deletes(spec) == [Delete(MACHINE), Delete(b), Delete(i)];
    ExecThree(s, replies, Delete(MACHINE), Delete(b), Delete(i));
    hide Exec;
    hide IdOf;
  }

  /** Some access review among the three is not answered with permission. */
  predicate ReviewFails(replies: seq<Reply>) {
    |replies| < 3 || !replies[0].Done? || !replies[1].Done? || !replies[2].Done?
  }

  /** A failed validation or access review creates nothing, whatever the later replies would have been. */
  lemma FailedChecksCreateNothing(spec: MachineSpec, s: Store, replies: seq<Reply>)
    requires CheckFields(spec).Some? || CheckMetadata(spec).Some? || ReviewFails(replies)
    ensures Added(spec, s, replies).store == s && Added(spec, s, replies).failure.Some?
  {
    if CheckFields(spec).None? {
      var b, i := IdOf(spec.bootstrap).value, IdOf(spec.infrastructure).value;
      ReviewsChangeNothing(s, replies, b, i);
      ExecThree(s, replies, Review(b), Review(i), Review(MACHINE));
    }
  }

  ghost predicate Undisturbed(replies: seq<Reply>, calls: nat) {
    calls <= |replies| && forall k :: 0 <= k < calls ==> replies[k] == Done
  }

  // ---------------------------------------------------------------------------------------------
  // The checks, on the fields of the spec
  // ---------------------------------------------------------------------------------------------

  /** A group, one slash, and a version without a slash. */
  ghost predicate InGroup(apiVersion: string, group: string) {
    exists version :: apiVersion == group + "/" + version && '/' !in version
  }

  lemma InGroupSnoc(init: string, c: char, group: string)
    ensures InGroup(init + [c], group) <==> if c == '/' then init == group else InGroup(init, group)
  {
    var s := init + [c];
    if version :| s == group + "/" + version && '/' !in version {
      if version == "" {
        assert s == group + "/" && c == s[|s| - 1] == '/' && init == s[..|s| - 1];
      } else {
        assert c == s[|s| - 1] == version[|version| - 1];
        assert init == s[..|s| - 1] == group + "/" + version[..|version| - 1];
      }
    }
    if c == '/' && init == group {
      assert s == group + "/" + "";
    }
    if c != '/' {
      if version :| init == group + "/" + version && '/' !in version {
        assert s == group + "/" + (version + [c]);
      }
    }
  }

  /** The group is what stands before the last slash. */
  lemma {:induction false} GroupOfIff(apiVersion: string, group: string)
    ensures '/' in apiVersion && GroupOf(apiVersion) == group <==> InGroup(apiVersion, group)
    ensures '/' !in apiVersion ==> GroupOf(apiVersion) == ""
    decreases |apiVersion|
  {
    if |apiVersion| > 0 {
      var init, c := apiVersion[..|apiVersion| - 1], apiVersion[|apiVersion| - 1];
      assert apiVersion == init + [c];
      InGroupSnoc(init, c, group);
      GroupOfIff(init, group);
      hide InGroup;
    }
  }

  ghost predicate BootstrapGroup(apiVersion: string) {
    InGroup(apiVersion, "bootstrap.cluster.x-k8s.io") || InGroup(apiVersion, "k0smotron.io")
  }

  ghost predicate InfrastructureGroup(apiVersion: string) {
    InGroup(apiVersion, "infrastructure.cluster.x-k8s.io") || InGroup(apiVersion, "k0smotron.io")
  }

  predicate Complete(e: Embedded) {
    e.apiVersion.Some? && e.kind.Some?
  }

  /** The checks before the reviews, in their order: missing fields, then the name and commands, then the groups. */
  lemma FieldFaults(spec: MachineSpec)
    ensures !Complete(spec.bootstrap) || !Complete(spec.infrastructure) ==> CheckFields(spec) == Some(InvalidConfig)
    ensures Complete(spec.bootstrap) && Complete(spec.infrastructure) ==>
              var allowed := && spec.clusterNameValid && spec.killIfValid
                             && BootstrapGroup(spec.bootstrap.apiVersion.value)
                             && InfrastructureGroup(spec.infrastructure.apiVersion.value);
              CheckFields(spec) == if allowed then None else Some(ValidationError)
  {
    if Complete(spec.bootstrap) && Complete(spec.infrastructure) {
      var b, i := spec.bootstrap.apiVersion.value, spec.infrastructure.apiVersion.value;
      GroupOfIff(b, "bootstrap.cluster.x-k8s.io");
      GroupOfIff(b, "k0smotron.io");
      GroupOfIff(i, "infrastructure.cluster.x-k8s.io");
      GroupOfIff(i, "k0smotron.io");
      hide GroupOf;
    }
  }

  /** The checks after the reviews, in their order. */
  lemma MetadataFaults(spec: MachineSpec)
    ensures CheckMetadata(spec) == Some(ValidationError) <==>
            !spec.templateAllowed || !spec.bootstrap.metadataAllowed || !spec.infrastructure.metadataAllowed
    ensures CheckMetadata(spec) == None <==>
            && spec.templateAllowed && spec.bootstrap.metadataAllowed && spec.infrastructure.metadataAllowed
            && spec.uid.Some?
    ensures CheckMetadata(spec).Some? ==> CheckMetadata(spec).value in {ValidationError, InvalidConfig}
  {
  }

  /** An add succeeds exactly when every check passes and all six calls are answered with success. */
  lemma AddSucceedsIff(spec: MachineSpec, s: Store, replies: seq<Reply>)
    ensures Added(spec, s, replies).failure.None? <==>
            && Complete(spec.bootstrap) && Complete(spec.infrastructure) && spec.clusterNameValid && spec.killIfValid
            && BootstrapGroup(spec.bootstrap.apiVersion.value)
            && InfrastructureGroup(spec.infrastructure.apiVersion.value)
            && spec.templateAllowed && spec.bootstrap.metadataAllowed && spec.infrastructure.metadataAllowed
            && spec.uid.Some?
            && 6 <= |replies| && forall k :: 0 <= k < 6 ==> replies[k].Done?
  {
    FieldFaults(spec);
    MetadataFaults(spec);
    hide CheckFields;
    hide CheckMetadata;
    if CheckFields(spec).None? {
      var b, i := IdOf(spec.bootstrap).value, IdOf(spec.infrastructure).value;
      AddCalls(b, i, s, replies);
    }
  }

  /** The two stages of calls, as the replies decide them. */
  lemma AddCalls(b: Id, i: Id, s: Store, replies: seq<Reply>)
    ensures var reviewed := Exec(s, replies, Reviews(b, i));
            && (reviewed.failure.None? <==> 3 <= |replies| && forall k :: 0 <= k < 3 ==> replies[k].Done?)
            && (reviewed.failure.None? ==>
                  (Exec(reviewed.store, reviewed.replies, Creates(b, i)).failure.None? <==>
                   6 <= |replies| && forall k :: 0 <= k < 6 ==> replies[k].Done?))
  {
    ExecSucceedsIff(s, replies, Reviews(b, i));
    assert 3 <= |replies| ==> replies[0..3] == [replies[0], replies[1], replies[2]];
    var reviewed := Exec(s, replies, Reviews(b, i));
    if reviewed.failure.None? {
      ReviewsAnswered(s, replies, b, i);
      ExecSucceedsIff(reviewed.store, reviewed.replies, Creates(b, i));
    }
    hide Exec;
  }

  lemma ReviewsAnswered(s: Store, replies: seq<Reply>, b: Id, i: Id)
    requires Exec(s, replies, Reviews(b, i)).failure.None?
    ensures |replies| >= 3 && Exec(s, replies, Reviews(b, i)).replies == replies[3..]
  {
    ExecThree(s, replies, Review(b), Review(i), Review(MACHINE));
  }

  /** A review that says no is a denial, one that fails an API error; the first of them decides. */
  lemma ReviewDenies(spec: MachineSpec, s: Store, replies: seq<Reply>, k: nat)
    requires CheckFields(spec).None? && k < 3 && k < |replies| && !replies[k].Done?
    requires forall j :: 0 <= j < k ==> replies[j].Done?
    ensures Added(spec, s, replies).failure == Some(if replies[k].Refused? then PermissionDenied else ApiError)
  {
    var b, i := IdOf(spec.bootstrap).value, IdOf(spec.infrastructure).value;
    ExecFailsWith(s, replies, Reviews(b, i), k);
  }

  /** A remove asks nothing of the spec: it succeeds exactly when each of its deletes does. */
  lemma RemoveSucceedsIff(spec: MachineSpec, s: Store, replies: seq<Reply>)
    ensures var n := 1 + (if Complete(spec.bootstrap) then 1 else 0) + if Complete(spec.infrastructure) then 1 else 0;
            Removed(spec, s, replies).failure.None? <==>
            n <= |replies| && forall k :: 0 <= k < n ==> replies[k].Done?
  {
    ExecSucceedsIff(s, replies, Deletes(spec));
    assert forall k :: 0 <= k < |Deletes(spec)| ==> Deletes(spec)[k].Delete?;
  }

  // ---------------------------------------------------------------------------------------------
  // Which objects
  // ---------------------------------------------------------------------------------------------

  /** The plural of a kind is the kind in lower case with an `s` behind it. */
  lemma PluralIs(kind: string, plural: string)
    ensures ResourcePlural(kind) == plural <==>
            && |plural| == |kind| + 1 && plural[|kind|] == 's'
            && forall i :: 0 <= i < |kind| ==>
                 plural[i] as int == kind[i] as int + if 'A' <= kind[i] <= 'Z' then 32 else 0
  {
  }

  /** An embedded resource names an object of its own group and plural. */
  lemma NamesObject(e: Embedded, group: string, kind: string)
    requires e.apiVersion.Some? && InGroup(e.apiVersion.value, group) && e.kind == Some(kind)
    ensures IdOf(e) == Some(Id(group, ResourcePlural(kind)))
  {
    GroupOfIff(e.apiVersion.value, group);
  }

  /** An undisturbed add succeeds exactly when the checks pass, and then leaves all three objects live. */
  lemma AddCompletes(spec: MachineSpec, s: Store, replies: seq<Reply>)
    requires Undisturbed(replies, 6)
    ensures Added(spec, s, replies).failure.None? <==> CheckFields(spec).None? && CheckMetadata(spec).None?
    ensures Added(spec, s, replies).failure.None? ==>
              Added(spec, s, replies).store.live
              == s.live + {IdOf(spec.bootstrap).value, IdOf(spec.infrastructure).value, MACHINE}
  {
    if CheckFields(spec).None? {
      var b, i := IdOf(spec.bootstrap).value, IdOf(spec.infrastructure).value;
      ExecThree(s, replies, Review(b), Review(i), Review(MACHINE));
      assert Exec(s, replies, Reviews(b, i)) == Outcome(s, replies[3..], None);
      ExecThree(s, replies[3..], Create(b), Create(i), Create(MACHINE));
    }
  }

  /** Whatever add reports as success is complete, also when it resumes a half-done add. */
  lemma AddSuccessIsComplete(spec: MachineSpec, s: Store, replies: seq<Reply>)
    requires Added(spec, s, replies).failure.None?
    ensures Added(spec, s, replies).store.live
         == s.live + {IdOf(spec.bootstrap).value, IdOf(spec.infrastructure).value, Id("cluster.x-k8s.io", "machines")}
  {
    var b, i := IdOf(spec.bootstrap).value, IdOf(spec.infrastructure).value;
    ReviewsChangeNothing(s, replies, b, i);
    var reviewed := Exec(s, replies, Reviews(b, i));
    ExecThree(reviewed.store, reviewed.replies, Create(b), Create(i), Create(MACHINE));
  }

  function IdSet(id: Option<Id>): set<Id> {
    match id case Some(id) => {id} case None => {}
  }

  function NamedIds(spec: MachineSpec): set<Id> {
    {MACHINE} + IdSet(IdOf(spec.bootstrap)) + IdSet(IdOf(spec.infrastructure))
  }

  lemma DeleteIfNamedEffect(e: Embedded, s: Store)
    ensures AllEffects(s, DeleteIfNamed(e)) == s.(live := s.live - IdSet(IdOf(e)))
  {
    if IdOf(e).Some? {
      OneEffect(s, Delete(IdOf(e).value));
    }
  }

  lemma DeletesEffect(spec: MachineSpec, s: Store)
    ensures AllEffects(s, Deletes(spec)) == s.(live := s.live - NamedIds(spec))
  {
    var t := Effect(Delete(MACHINE), s);
    OneEffect(s, Delete(MACHINE));
    AllEffectsConcat(s, [Delete(MACHINE)], DeleteIfNamed(spec.bootstrap));
    DeleteIfNamedEffect(spec.bootstrap, t);
    var u := AllEffects(t, DeleteIfNamed(spec.bootstrap));
    AllEffectsConcat(s, [Delete(MACHINE)] + DeleteIfNamed(spec.bootstrap), DeleteIfNamed(spec.infrastructure));
    DeleteIfNamedEffect(spec.infrastructure, u);
    assert AllEffects(s, Deletes(spec)).live == s.live - NamedIds(spec);
  }

  /** Whatever remove reports as success has removed everything the spec names and nothing else. */
  lemma RemoveSuccessIsComplete(spec: MachineSpec, s: Store, replies: seq<Reply>)
    requires Removed(spec, s, replies).failure.None?
    ensures Removed(spec, s, replies).store == s.(live := s.live - NamedIds(spec))
  {
    ExecSucceeds(s, replies, Deletes(spec));
    DeletesEffect(spec, s);
  }

  /** An undisturbed remove always succeeds. */
  lemma RemoveCompletes(spec: MachineSpec, s: Store, replies: seq<Reply>)
    requires Undisturbed(replies, 3)
    ensures Removed(spec, s, replies).failure.None?
  {
    UndisturbedExec(s, replies, Deletes(spec));
  }

  /** After any history with crashes, a retried add ends with all three objects, a retried remove with none. */
  lemma RetriesConverge(spec: MachineSpec, s: Store, ops: seq<Op>, replies: seq<Reply>)
    requires Linked(spec, s) && OwnObjectsOnly(spec, s) && Undisturbed(replies, 6)
    ensures CheckFields(spec).None? && CheckMetadata(spec).None? ==>
              Run(spec, s, ops + [Add(replies)]).live == NamedIds(spec)
    ensures Run(spec, s, ops + [Remove(replies)]).live == {}
  {
    var t := Run(spec, s, ops);
    MachineIsAlwaysLinked(spec, s, ops);
    assert (ops + [Add(replies)])[..|ops|] == ops && (ops + [Remove(replies)])[..|ops|] == ops;
    AddCompletes(spec, t, replies);
    RemoveCompletes(spec, t, replies);
    RemoveSuccessIsComplete(spec, t, replies);
  }
}
