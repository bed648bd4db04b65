/** The selection logic of the query functions: the mutation-result gate,
    the name-to-id resolvers over catalog tables, job selection, the
    volume-to-study classification, and the `load_and_hash_volume`
    workflow. Catalog queries are answered by the `GraphClient` oracle or
    taken as input tables. */
module QueryFunctions {
  import opened Common
  import opened GraphClient

  // ---------------------------------------------------------------------
  // Scans over id-keyed tables, shared by every resolver
  // ---------------------------------------------------------------------

  /** The ids of the entries satisfying `p`, in table order. */
  function Matching<D>(t: Table<D>, p: ((Id, D)) -> bool): (ids: seq<Id>)
    ensures |ids| <= |t|
    ensures forall x :: x in ids <==> exists k :: 0 <= k < |t| && t[k].0 == x && p(t[k])
  {
    if t == [] then []
    else
      var last := t[|t| - 1];
      Matching(t[..|t| - 1], p) + (if p(last) then [last.0] else [])
  }

  /** Exactly one entry of `t` satisfies `p`. */
  ghost predicate UniqueMatch<D>(t: Table<D>, p: ((Id, D)) -> bool) {
    exists k :: 0 <= k < |t| && p(t[k]) && forall j :: 0 <= j < |t| && j != k ==> !p(t[j])
  }

  /** Exactly one matching id is the same as exactly one matching entry. */
  lemma MatchingSingle<D>(t: Table<D>, p: ((Id, D)) -> bool)
    ensures |Matching(t, p)| == 1 <==> UniqueMatch(t, p)
  {
    if |Matching(t, p)| == 1 { MatchingSingleUnique(t, p); }
    if UniqueMatch(t, p) { UniqueMatchingSingle(t, p); }
  }

  lemma {:induction false} MatchingSingleUnique<D>(t: Table<D>, p: ((Id, D)) -> bool)
    requires |Matching(t, p)| == 1
    ensures UniqueMatch(t, p)
  {
    var n := |t| - 1;
    var init := t[..n];
    assert forall k :: 0 <= k < n ==> init[k] == t[k];
    if p(t[n]) {
      assert Matching(init, p) == [];
      forall j | 0 <= j < n ensures !p(t[j]) {
        assert init[j].0 !in Matching(init, p);
      }
    } else {
      MatchingSingleUnique(init, p);
      var k :| 0 <= k < n && p(init[k]) && forall j :: 0 <= j < n && j != k ==> !p(init[j]);
      forall j | 0 <= j < |t| && j != k ensures !p(t[j]) {
        if j < n { assert init[j] == t[j]; }
      }
    }
  }

  lemma {:induction false} MatchingNone<D>(t: Table<D>, p: ((Id, D)) -> bool)
    requires forall k :: 0 <= k < |t| ==> !p(t[k])
    ensures Matching(t, p) == []
  {
    if t != [] {
      var init := t[..|t| - 1];
      assert forall k :: 0 <= k < |init| ==> init[k] == t[k];
      MatchingNone(init, p);
    }
  }

  lemma {:induction false} UniqueMatchingSingle<D>(t: Table<D>, p: ((Id, D)) -> bool)
    requires UniqueMatch(t, p)
    ensures |Matching(t, p)| == 1
  {
    var n := |t| - 1;
    var init := t[..n];
    assert forall k :: 0 <= k < n ==> init[k] == t[k];
    var k :| 0 <= k < |t| && p(t[k]) && forall j :: 0 <= j < |t| && j != k ==> !p(t[j]);
    if k == n {
      MatchingNone(init, p);
    } else {
      assert p(init[k]);
      forall j | 0 <= j < n && j != k ensures !p(init[j]) {
        assert init[j] == t[j];
      }
      UniqueMatchingSingle(init, p);
    }
  }

  /** The id of the last entry satisfying `p` (Python's "last match wins"). */
  function LastMatch<D>(t: Table<D>, p: ((Id, D)) -> bool): Option<Id> {
    if t == [] then None
    else if p(t[|t| - 1]) then Some(t[|t| - 1].0)
    else LastMatch(t[..|t| - 1], p)
  }

  /** None exactly when nothing matches; otherwise the id of a matching
      entry that no later entry matches. */
  lemma {:induction false} LastMatchFacts<D>(t: Table<D>, p: ((Id, D)) -> bool)
    ensures LastMatch(t, p).None? <==> forall k :: 0 <= k < |t| ==> !p(t[k])
    ensures LastMatch(t, p).Some? ==>
      exists k :: 0 <= k < |t| && t[k].0 == LastMatch(t, p).value && p(t[k])
                  && forall j :: k < j < |t| ==> !p(t[j])
  {
    if t != [] {
      var n := |t| - 1;
      if p(t[n]) {
        assert t[n].0 == LastMatch(t, p).value;
      } else {
        var init := t[..n];
        LastMatchFacts(init, p);
        assert forall k :: 0 <= k < n ==> init[k] == t[k];
        if LastMatch(t, p).Some? {
          var k :| 0 <= k < n && init[k].0 == LastMatch(t, p).value && p(init[k])
                   && forall j :: k < j < n ==> !p(init[j]);
          assert t[k] == init[k];
        }
      }
    }
  }

  /** The exactly-one rule of `get_study_id` and `get_org_id`. */
  function ExactlyOne(ids: seq<Id>, resource: Resource, selector: string): Result<Id> {
    if |ids| == 1 then Success(ids[0])
    else if |ids| == 0 then Failure(NotFound(resource, selector))
    else Failure(Ambiguous(resource, selector))
  }

  /** The three outcomes of the exactly-one rule, in terms of the table. */
  lemma ExactlyOneOutcomes<D>(t: Table<D>, p: ((Id, D)) -> bool, resource: Resource, selector: string)
    ensures var r := ExactlyOne(Matching(t, p), resource, selector);
      && (r.Success? <==> UniqueMatch(t, p))
      && (r.Success? ==> exists k :: 0 <= k < |t| && t[k].0 == r.value && p(t[k]))
      && (r == Failure(NotFound(resource, selector)) <==> forall k :: 0 <= k < |t| ==> !p(t[k]))
      && (r == Failure(Ambiguous(resource, selector)) <==>
            (exists k :: 0 <= k < |t| && p(t[k])) && !UniqueMatch(t, p))
  {
    var ids := Matching(t, p);
    MatchingSingle(t, p);
    if ids != [] {
      assert ids[0] in ids;
    } else {
      assert forall k :: 0 <= k < |t| ==> t[k].0 !in ids;
    }
  }

  // ---------------------------------------------------------------------
  // check_mutation_result, add_volume, list_and_hash_volume
  // ---------------------------------------------------------------------

  /** The `errors` of the first top-level field that has any. */
  function FirstErrors(reply: MutationReply): (r: Option<seq<MutationError>>)
    ensures r.None? <==> forall k :: 0 <= k < |reply| ==> reply[k].1.errors.None?
    ensures r.Some? ==> exists k :: 0 <= k < |reply| && reply[k].1.errors == r
                                    && forall j :: 0 <= j < k ==> reply[j].1.errors.None?
  {
    if reply == [] then None
    else if reply[0].1.errors.Some? then reply[0].1.errors
    else
      var r := FirstErrors(reply[1..]);
      assert forall k :: 1 <= k < |reply| ==> reply[1..][k - 1] == reply[k];
      r
  }

  /** Raises (returns the offending errors) at the first field whose
      `errors` is not null; returns None when no field has errors. */
  method CheckMutationResult(reply: MutationReply) returns (raised: Option<seq<MutationError>>)
    ensures raised == FirstErrors(reply)
    ensures raised.None? <==> forall k :: 0 <= k < |reply| ==> reply[k].1.errors.None?
  {
    for i := 0 to |reply|
      invariant FirstErrors(reply[i..]) == FirstErrors(reply)
    {
      assert reply[i..][1..] == reply[i + 1..];
      if reply[i].1.errors.Some? {
        return reply[i].1.errors;
      }
    }
    return None;
  }

  /** `result[key]`: the first top-level field with that name. */
  function Lookup(reply: MutationReply, key: string): Option<Payload> {
    if reply == [] then None
    else if reply[0].0 == key then Some(reply[0].1)
    else Lookup(reply[1..], key)
  }

  /** What `add_volume` and `list_and_hash_volume` make of a reply: the
      gate first, and only then `result[key][object]["id"]`. */
  function MutationOutcome(reply: MutationReply, key: string): Result<Id> {
    match FirstErrors(reply)
    case Some(errs) => Failure(MutationFailed(errs))
    case None =>
      match Lookup(reply, key)
      case None => Failure(MissingField(key))
      case Some(payload) =>
        if payload.id.Some? then Success(payload.id.value) else Failure(MissingField(key))
  }

  lemma {:induction false} LookupFinds(reply: MutationReply, key: string)
    ensures Lookup(reply, key).Some? <==> exists k :: 0 <= k < |reply| && reply[k].0 == key
    ensures Lookup(reply, key).Some? ==>
      exists k :: 0 <= k < |reply| && reply[k] == (key, Lookup(reply, key).value)
                  && forall j :: 0 <= j < k ==> reply[j].0 != key
  {
    if reply != [] && reply[0].0 != key {
      LookupFinds(reply[1..], key);
      assert forall k :: 1 <= k < |reply| ==> reply[1..][k - 1] == reply[k];
      if Lookup(reply, key).Some? {
        var k :| 0 <= k < |reply[1..]| && reply[1..][k] == (key, Lookup(reply, key).value)
                 && forall j :: 0 <= j < k ==> reply[1..][j].0 != key;
        assert reply[k + 1] == (key, Lookup(reply, key).value);
      }
    }
  }

  /** The payload's id is trusted only when no field carries errors: a reply
      with errors always fails with the first field's errors, and success
      means no errors and the id of the first field named `key`. */
  lemma MutationGate(reply: MutationReply, key: string)
    ensures (exists k :: 0 <= k < |reply| && reply[k].1.errors.Some?) ==>
      MutationOutcome(reply, key) == Failure(MutationFailed(FirstErrors(reply).value))
    ensures MutationOutcome(reply, key).Success? <==>
      (forall k :: 0 <= k < |reply| ==> reply[k].1.errors.None?)
      && (exists k :: 0 <= k < |reply| && reply[k].0 == key
                      && (forall j :: 0 <= j < k ==> reply[j].0 != key) && reply[k].1.id.Some?)
    ensures MutationOutcome(reply, key).Success? ==>
      exists k :: 0 <= k < |reply| && reply[k].0 == key && reply[k].1.id == Some(MutationOutcome(reply, key).value)
  {
    LookupFinds(reply, key);
    if Lookup(reply, key).Some? {
      var k :| 0 <= k < |reply| && reply[k] == (key, Lookup(reply, key).value)
               && forall j :: 0 <= j < k ==> reply[j].0 != key;
      forall k' | 0 <= k' < |reply| && reply[k'].0 == key && (forall j :: 0 <= j < k' ==> reply[j].0 != key)
        ensures k' == k
      {
      }
    }
  }

  /** The `VolumeCreateInput` that `add_volume` sends: four fixed keys, and
      `pathPrefix` exactly when a prefix was given. */
  function VolumeCreateInput(bucket: string, region: string, studyId: Id, awsCred: Id,
                             prefix: Option<string>): (input: map<string, string>)
    ensures input.Keys == {"name", "region", "studyId", "credentialId"}
                          + (if prefix.Some? then {"pathPrefix"} else {})
    ensures "pathPrefix" in input <==> prefix.Some?
    ensures input["name"] == bucket && input["region"] == region
    ensures input["studyId"] == studyId && input["credentialId"] == awsCred
    ensures prefix.Some? ==> input["pathPrefix"] == prefix.value
  {
    var base := map["name" := bucket, "region" := region, "studyId" := studyId, "credentialId" := awsCred];
    if prefix.Some? then base["pathPrefix" := prefix.value] else base
  }

  /** Issues the volume-create mutation and returns the new volume's id. */
  method AddVolume(client: Client, studyId: Id, prefix: Option<string>, region: string,
                   bucket: string, awsCred: Id) returns (r: Result<Id>)
    modifies client
    ensures client.trace == old(client.trace)
                            + [Mutate(VolumeCreate(VolumeCreateInput(bucket, region, studyId, awsCred, prefix)))]
    ensures r == MutationOutcome(client.server.respond(VolumeCreate(VolumeCreateInput(bucket, region, studyId, awsCred, prefix))),
                                 "volumeCreate")
  {
    var input := map["name" := bucket, "region" := region, "studyId" := studyId, "credentialId" := awsCred];
    if prefix.Some? {
      input := input["pathPrefix" := prefix.value];
    }
    var reply := client.Execute(VolumeCreate(input));
    var raised := CheckMutationResult(reply);
    if raised.Some? {
      return Failure(MutationFailed(raised.value));
    }
    var volume := Lookup(reply, "volumeCreate");
    if volume.None? || volume.value.id.None? {
      return Failure(MissingField("volumeCreate"));
    }
    r := Success(volume.value.id.value);
  }

  /** The call and outcome of `list_and_hash_volume`. */
  ghost function ListAndHashRun(s: Server, volumeId: Id, billingId: Id): Run<Id> {
    var m := VolumeListAndHash(volumeId, billingId);
    Run(MutationOutcome(s.respond(m), "volumeListAndHash"), [Mutate(m)])
  }

  /** Issues the list-and-hash mutation and returns the parent job's id. */
  method ListAndHashVolume(client: Client, volumeId: Id, billingId: Id) returns (r: Result<Id>)
    modifies client
    ensures client.trace == old(client.trace) + ListAndHashRun(client.server, volumeId, billingId).calls
    ensures r == ListAndHashRun(client.server, volumeId, billingId).outcome
  {
    var reply := client.Execute(VolumeListAndHash(volumeId, billingId));
    var raised := CheckMutationResult(reply);
    if raised.Some? {
      return Failure(MutationFailed(raised.value));
    }
    var job := Lookup(reply, "volumeListAndHash");
    if job.None? || job.value.id.None? {
      return Failure(MissingField("volumeListAndHash"));
    }
    r := Success(job.value.id.value);
  }

  // ---------------------------------------------------------------------
  // pick_external_id, get_cred_id, get_billing_id
  // ---------------------------------------------------------------------

  function NameIs(name: string): ((Id, ExternalInfo)) -> bool {
    (e: (Id, ExternalInfo)) => e.1.name == name
  }

  /** The choice `pick_external_id` makes among credentials or billing
      groups: the sole candidate when no name is given, the last candidate
      with the given name, or one of three errors. A name of "" is falsy and
      so counts as no name, except that it disables the sole-candidate rule. */
  function PickExternal(name: Option<string>, externals: Table<ExternalInfo>, kind: ExternalType): Result<Id> {
    if |externals| == 1 && name.None? then Success(externals[0].0)
    else if Truthy(name) then
      match LastMatch(externals, NameIs(name.value))
      case Some(id) => Success(id)
      case None => Failure(NotFound(External(kind), name.value))
    else if |externals| == 0 then Failure(NoCandidates)
    else Failure(NoneSelected(kind, Keys(externals)))
  }

  method PickExternalId(name: Option<string>, externals: Table<ExternalInfo>, kind: ExternalType)
    returns (r: Result<Id>)
    ensures r == PickExternal(name, externals, kind)
    ensures |externals| == 1 && name.None? ==> r == Success(externals[0].0)
    ensures Truthy(name) ==>
      (r.Success? <==> exists k :: 0 <= k < |externals| && externals[k].1.name == name.value)
    ensures Truthy(name) && r.Success? ==>
      exists k :: 0 <= k < |externals| && externals[k].0 == r.value && externals[k].1.name == name.value
                  && forall j :: k < j < |externals| ==> externals[j].1.name != name.value
    ensures !Truthy(name) && !(|externals| == 1 && name.None?) ==> r.Failure?
  {
    var extId: Option<Id> := None;
    var error := NoCandidates;
    if |externals| == 1 && name.None? {
      extId := Some(externals[0].0);
    } else if Truthy(name) {
      for i := 0 to |externals|
        invariant extId == LastMatch(externals[..i], NameIs(name.value))
      {
        assert externals[..i + 1][..i] == externals[..i];
        if name.value == externals[i].1.name {
          extId := Some(externals[i].0);
        }
      }
      assert externals[..|externals|] == externals;
      if extId.None? {
        error := NotFound(External(kind), name.value);
      }
    } else if |externals| == 0 {
      error := NoCandidates;
    } else {
      error := NoneSelected(kind, Keys(externals));
    }
    if Truthy(name) {
      LastMatchFacts(externals, NameIs(name.value));
    }
    if extId.None? {
      return Failure(error);
    }
    r := Success(extId.value);
  }

  /** The credential `get_cred_id` settles on: the query's failure, or
      the pick among the study's credentials. */
  function CredIdOf(s: Server, studyId: Id, credName: Option<string>): Result<Id> {
    match s.CredentialsOf(studyId)
    case Failure(e) => Failure(e)
    case Success(credentials) => PickExternal(credName, credentials, Credential)
  }

  /** The billing group `get_billing_id` settles on. There is no
      default-group fallback: billing groups carry only a name. */
  function BillingIdOf(s: Server, orgId: Id, billing: Option<string>): Result<Id> {
    match s.BillingGroupsOf(orgId)
    case Failure(e) => Failure(e)
    case Success(groups) => PickExternal(billing, groups, BillingGroup)
  }

  /** `get_cred_id`: query the study's credentials, then pick one. */
  method GetCredId(client: Client, studyId: Id, credName: Option<string>) returns (r: Result<Id>)
    modifies client
    ensures client.trace == old(client.trace) + [Query(StudyCredentials(studyId))]
    ensures r == CredIdOf(client.server, studyId, credName)
  {
    var credentials := client.GetStudyCredentials(studyId);
    if credentials.Failure? {
      return Failure(credentials.error);
    }
    r := PickExternalId(credName, credentials.value, Credential);
  }

  /** `get_billing_id`: query the organization's billing groups, then pick one. */
  method GetBillingId(client: Client, orgId: Id, billing: Option<string>) returns (r: Result<Id>)
    modifies client
    ensures client.trace == old(client.trace) + [Query(BillingGroups(orgId))]
    ensures r == BillingIdOf(client.server, orgId, billing)
  {
    var groups := client.GetBillingGroups(orgId);
    if groups.Failure? {
      return Failure(groups.error);
    }
    r := PickExternalId(billing, groups.value, BillingGroup);
  }

  // ---------------------------------------------------------------------
  // get_study_id, get_org_id
  // ---------------------------------------------------------------------

  /** A study matches when the selector is its id, its global id or its name. */
  predicate StudyMatches(selector: string, e: (Id, StudyInfo)) {
    selector == e.0 || selector == e.1.globalId || selector == e.1.name
  }

  function StudySelector(selector: string): ((Id, StudyInfo)) -> bool {
    (e: (Id, StudyInfo)) => StudyMatches(selector, e)
  }

  /** The resolution `get_study_id` makes over the studies table. */
  function StudyIdOf(studies: Table<StudyInfo>, selector: string): Result<Id> {
    ExactlyOne(Matching(studies, StudySelector(selector)), Study, selector)
  }

  /** Resolves a study id, global id or name to the one study it denotes. */
  method GetStudyId(studies: Table<StudyInfo>, studyName: string) returns (r: Result<Id>)
    ensures r == StudyIdOf(studies, studyName)
    ensures r.Success? <==> UniqueMatch(studies, StudySelector(studyName))
    ensures r.Success? ==> exists k :: 0 <= k < |studies| && studies[k].0 == r.value && StudyMatches(studyName, studies[k])
    ensures r == Failure(NotFound(Study, studyName)) <==>
      forall k :: 0 <= k < |studies| ==> !StudyMatches(studyName, studies[k])
    ensures r == Failure(Ambiguous(Study, studyName)) <==>
      (exists k :: 0 <= k < |studies| && StudyMatches(studyName, studies[k]))
      && !UniqueMatch(studies, StudySelector(studyName))
  {
    var studyIds: seq<Id> := [];
    for i := 0 to |studies|
      invariant studyIds == Matching(studies[..i], StudySelector(studyName))
    {
      assert studies[..i + 1][..i] == studies[..i];
      if studyName == studies[i].0 || studyName == studies[i].1.globalId || studyName == studies[i].1.name {
        studyIds := studyIds + [studies[i].0];
      }
    }
    assert studies[..|studies|] == studies;
    ExactlyOneOutcomes(studies, StudySelector(studyName), Study, studyName);
    if |studyIds| == 1 {
      r := Success(studyIds[0]);
    } else if |studyIds| == 0 {
      r := Failure(NotFound(Study, studyName));
    } else {
      r := Failure(Ambiguous(Study, studyName));
    }
  }

  function NamedSelector(name: string): ((Id, string)) -> bool {
    (e: (Id, string)) => e.1 == name
  }

  /** Resolves an organization name over the organization edges (id, name). */
  method GetOrgId(organizations: Table<string>, orgName: string) returns (r: Result<Id>)
    ensures r == ExactlyOne(Matching(organizations, NamedSelector(orgName)), Organization, orgName)
    ensures r.Success? <==> UniqueMatch(organizations, NamedSelector(orgName))
    ensures r.Success? ==> exists k :: 0 <= k < |organizations| && organizations[k] == (r.value, orgName)
    ensures r == Failure(NotFound(Organization, orgName)) <==>
      forall k :: 0 <= k < |organizations| ==> organizations[k].1 != orgName
  {
    var orgIds: seq<Id> := [];
    for i := 0 to |organizations|
      invariant orgIds == Matching(organizations[..i], NamedSelector(orgName))
    {
      assert organizations[..i + 1][..i] == organizations[..i];
      if organizations[i].1 == orgName {
        orgIds := orgIds + [organizations[i].0];
      }
    }
    assert organizations[..|organizations|] == organizations;
    ExactlyOneOutcomes(organizations, NamedSelector(orgName), Organization, orgName);
    if |orgIds| == 1 {
      r := Success(orgIds[0]);
    } else if |orgIds| == 0 {
      r := Failure(NotFound(Organization, orgName));
    } else {
      r := Failure(Ambiguous(Organization, orgName));
    }
  }

  // ---------------------------------------------------------------------
  // process_volumes
  // ---------------------------------------------------------------------

  function VolumeNamed(vname: Option<string>): ((Id, string)) -> bool {
    (e: (Id, string)) => vname == Some(e.1)
  }

  /** The volume `process_volumes` selects. A truthy `vid` must be a key of
      the study's volumes; otherwise the unique volume named `vname` is
      chosen, and with zero or several such volumes the (falsy) `vid` comes
      back unchanged. */
  function VolumeResolution(volumes: Table<string>, vid: Option<string>, vname: Option<string>): Result<Option<Id>> {
    if Truthy(vid) then
      if HasKey(volumes, vid.value) then Success(vid) else Failure(UnknownVolumeId(vid.value))
    else
      var matching := Matching(volumes, VolumeNamed(vname));
      if |matching| == 1 then Success(Some(matching[0])) else Success(vid)
  }

  method ProcessVolumes(volumes: Table<string>, vid: Option<string>, vname: Option<string>)
    returns (r: Result<Option<Id>>)
    ensures r == VolumeResolution(volumes, vid, vname)
    ensures Truthy(vid) ==> (r == Success(vid) <==> HasKey(volumes, vid.value))
    ensures Truthy(vid) ==> (r == Failure(UnknownVolumeId(vid.value)) <==> !HasKey(volumes, vid.value))
    ensures !Truthy(vid) ==> r.Success?
    ensures !Truthy(vid) && UniqueMatch(volumes, VolumeNamed(vname)) ==>
      r.value.Some? && exists k :: 0 <= k < |volumes| && volumes[k].0 == r.value.value && vname == Some(volumes[k].1)
    ensures !Truthy(vid) && !UniqueMatch(volumes, VolumeNamed(vname)) ==> r == Success(vid)
  {
    var volumeId := vid;
    if Truthy(volumeId) {
      if !HasKey(volumes, volumeId.value) {
        return Failure(UnknownVolumeId(volumeId.value));
      }
    } else {
      var matchingVolumes: seq<Id> := [];
      for i := 0 to |volumes|
        invariant matchingVolumes == Matching(volumes[..i], VolumeNamed(vname))
      {
        assert volumes[..i + 1][..i] == volumes[..i];
        if vname == Some(volumes[i].1) {
          matchingVolumes := matchingVolumes + [volumes[i].0];
        }
      }
      assert volumes[..|volumes|] == volumes;
      MatchingSingle(volumes, VolumeNamed(vname));
      if |matchingVolumes| == 1 {
        assert matchingVolumes[0] in matchingVolumes;
        volumeId := Some(matchingVolumes[0]);
      }
    }
    r := Success(volumeId);
  }

  // ---------------------------------------------------------------------
  // get_volume_jobs (timestamp parsing), get_most_recent_job
  // ---------------------------------------------------------------------

  const VOLUME_LIST := "VOLUME_LIST"
  const VOLUME_HASH := "VOLUME_HASH"
  const VOLUME_LIST_AND_HASH := "VOLUME_LIST_AND_HASH"

  /** A job edge as the service returns it; timestamps are null or text. */
  datatype RawJob = RawJob(id: Id, operation: string, createdAt: Option<string>, completedAt: Option<string>)

  /** A job after `get_volume_jobs` has parsed its timestamps; a job that
      has not completed has no completion instant. */
  datatype Job = Job(operation: string, createdAt: int, completedAt: Option<int>)

  /** `datetime.strptime(text, "%Y-%m-%dT%H:%M:%S.%fZ")`, left abstract: a
      partial map from text to ordered instants. */
  type Parser = string -> Option<int>

  /** strptime of a null timestamp raises as well. */
  function Stamp(text: Option<string>, parse: Parser): Option<int> {
    if text.None? then None else parse(text.value)
  }

  /** Both timestamps parse, as `get_volume_jobs` requires. */
  predicate Parses(job: RawJob, parse: Parser) {
    Stamp(job.createdAt, parse).Some? && Stamp(job.completedAt, parse).Some?
  }

  function ParsedJob(job: RawJob, parse: Parser): (Id, Job)
    requires Parses(job, parse)
  {
    (job.id, Job(job.operation, Stamp(job.createdAt, parse).value, Some(Stamp(job.completedAt, parse).value)))
  }

  /** The conversion loop of `get_volume_jobs`: both timestamps of every job
      are parsed, and the first job that fails to parse aborts it. An
      incomplete job (null `completedAt`) therefore makes it fail. */
  method ParseVolumeJobs(raw: seq<RawJob>, parse: Parser) returns (r: Result<Table<Job>>)
    ensures r.Success? <==> forall k :: 0 <= k < |raw| ==> Parses(raw[k], parse)
    ensures r.Success? ==> |r.value| == |raw| && forall k :: 0 <= k < |raw| ==> r.value[k] == ParsedJob(raw[k], parse)
    ensures r.Failure? ==>
      exists k :: 0 <= k < |raw| && !Parses(raw[k], parse) && r.error == MalformedTimestamp(raw[k].id)
                  && forall j :: 0 <= j < k ==> Parses(raw[j], parse)
    ensures (exists k :: 0 <= k < |raw| && raw[k].completedAt.None?) ==> r.Failure?
  {
    var jobs: Table<Job> := [];
    for i := 0 to |raw|
      invariant |jobs| == i
      invariant forall k :: 0 <= k < i ==> Parses(raw[k], parse) && jobs[k] == ParsedJob(raw[k], parse)
    {
      var created := Stamp(raw[i].createdAt, parse);
      var completed := Stamp(raw[i].completedAt, parse);
      if created.None? || completed.None? {
        return Failure(MalformedTimestamp(raw[i].id));
      }
      jobs := jobs + [(raw[i].id, Job(raw[i].operation, created.value, Some(completed.value)))];
    }
    r := Success(jobs);
  }

  /** The creation time parses, and so does the completion time of a job that
      has completed (the test `download_job_result` uses: neither null nor ""). */
  predicate ParsesTolerant(job: RawJob, parse: Parser) {
    Stamp(job.createdAt, parse).Some? && (!Truthy(job.completedAt) || parse(job.completedAt.value).Some?)
  }

  function TolerantJob(job: RawJob, parse: Parser): (Id, Job)
    requires ParsesTolerant(job, parse)
  {
    var completed := if Truthy(job.completedAt) then parse(job.completedAt.value) else None;
    (job.id, Job(job.operation, Stamp(job.createdAt, parse).value, completed))
  }

  /** The conversion `get_volume_jobs` evidently intends: a job still running
      is kept, without a completion instant, instead of aborting the query. */
  method ParseVolumeJobsTolerant(raw: seq<RawJob>, parse: Parser) returns (r: Result<Table<Job>>)
    ensures r.Success? <==> forall k :: 0 <= k < |raw| ==> ParsesTolerant(raw[k], parse)
    ensures r.Success? ==> |r.value| == |raw| && forall k :: 0 <= k < |raw| ==> r.value[k] == TolerantJob(raw[k], parse)
    ensures r.Failure? ==>
      exists k :: 0 <= k < |raw| && !ParsesTolerant(raw[k], parse) && r.error == MalformedTimestamp(raw[k].id)
    ensures r.Success? ==> forall k :: 0 <= k < |raw| ==> (r.value[k].1.completedAt.None? <==> !Truthy(raw[k].completedAt))
  {
    var jobs: Table<Job> := [];
    for i := 0 to |raw|
      invariant |jobs| == i
      invariant forall k :: 0 <= k < i ==> ParsesTolerant(raw[k], parse) && jobs[k] == TolerantJob(raw[k], parse)
    {
      var created := Stamp(raw[i].createdAt, parse);
      var completed: Option<int> := None;
      if Truthy(raw[i].completedAt) {
        completed := parse(raw[i].completedAt.value);
        if completed.None? {
          return Failure(MalformedTimestamp(raw[i].id));
        }
      }
      if created.None? {
        return Failure(MalformedTimestamp(raw[i].id));
      }
      jobs := jobs + [(raw[i].id, Job(raw[i].operation, created.value, completed))];
    }
    r := Success(jobs);
  }

  /** A volume with one finished hash job and one list job still running. */
  function RunningJobExample(): seq<RawJob> {
    [RawJob("job-1", VOLUME_HASH, Some("2024-01-01T00:00:00.000Z"), Some("2024-01-01T01:00:00.000Z")),
     RawJob("job-2", VOLUME_LIST, Some("2024-01-02T00:00:00.000Z"), None)]
  }

  /** On that volume the parsing as written fails, so no hash job can be
      found, although the tolerant parsing accepts every job and a hash job
      is there to be selected. */
  lemma RunningJobBlocksSelection(parse: Parser)
    requires parse("2024-01-01T00:00:00.000Z").Some? && parse("2024-01-01T01:00:00.000Z").Some?
    requires parse("2024-01-02T00:00:00.000Z").Some?
    ensures !(forall k :: 0 <= k < |RunningJobExample()| ==> Parses(RunningJobExample()[k], parse))
    ensures forall k :: 0 <= k < |RunningJobExample()| ==> ParsesTolerant(RunningJobExample()[k], parse)
    ensures JobOperation("hash") == Some(RunningJobExample()[0].operation)
  {
    assert !Parses(RunningJobExample()[1], parse);
    JobOperationAliases("hash");
  }

  /** Python's `str.upper()` on ASCII letters. */
  function Upper(s: string): string {
    seq(|s|, i requires 0 <= i < |s| => if 'a' <= s[i] <= 'z' then (s[i] as int - 32) as char else s[i])
  }

  /** The job-type aliases of `get_most_recent_job`: "hash"/"volume_hash"
      and "list"/"volume_list", in any letter case. */
  function JobOperation(jobType: string): Option<string> {
    var u := Upper(jobType);
    if u == "HASH" || u == VOLUME_HASH then Some(VOLUME_HASH)
    else if u == "LIST" || u == VOLUME_LIST then Some(VOLUME_LIST)
    else None
  }

  /** Letter case never matters, the aliases name the two operations, and
      every other type (including the operation VOLUME_LIST_AND_HASH) is
      refused. */
  lemma JobOperationAliases(jobType: string)
    ensures JobOperation(Upper(jobType)) == JobOperation(jobType)
    ensures JobOperation("hash") == Some(VOLUME_HASH) && JobOperation("Volume_Hash") == Some(VOLUME_HASH)
    ensures JobOperation("list") == Some(VOLUME_LIST) && JobOperation("VOLUME_LIST") == Some(VOLUME_LIST)
    ensures JobOperation(VOLUME_LIST_AND_HASH) == None && JobOperation("hashes") == None
  {
    assert Upper(Upper(jobType)) == Upper(jobType);
    assert Upper("hash") == "HASH";
    assert Upper("Volume_Hash") == VOLUME_HASH;
    assert Upper("list") == "LIST";
    assert Upper(VOLUME_LIST) == VOLUME_LIST;
    assert Upper(VOLUME_LIST_AND_HASH) == VOLUME_LIST_AND_HASH;
    assert |Upper("hashes")| == 6;
  }

  /** The selection loop of `get_most_recent_job` over parsed jobs: among
      the jobs with operation `op`, one whose `createdAt` is maximal, the
      first such in table order (the comparison is a strict `>`). */
  method SelectMostRecent(jobs: Table<Job>, op: string) returns (r: Result<Id>)
    ensures r.Success? <==> exists k :: 0 <= k < |jobs| && jobs[k].1.operation == op
    ensures r.Failure? ==> r.error == NoMatchingJob(op)
    ensures r.Success? ==>
      exists k :: 0 <= k < |jobs| && jobs[k].0 == r.value && jobs[k].1.operation == op
        && (forall j :: 0 <= j < |jobs| && jobs[j].1.operation == op ==> jobs[j].1.createdAt <= jobs[k].1.createdAt)
        && (forall j :: 0 <= j < k && jobs[j].1.operation == op ==> jobs[j].1.createdAt < jobs[k].1.createdAt)
  {
    var jid: Option<Id> := None;
    var recentDate: Option<int> := None;
    ghost var best := 0;
    for i := 0 to |jobs|
      invariant jid.None? <==> recentDate.None?
      invariant jid.None? ==> forall k :: 0 <= k < i ==> jobs[k].1.operation != op
      invariant jid.Some? ==>
        best < i && jobs[best].0 == jid.value && jobs[best].1.operation == op
        && recentDate == Some(jobs[best].1.createdAt)
        && (forall k :: 0 <= k < i && jobs[k].1.operation == op ==> jobs[k].1.createdAt <= recentDate.value)
        && (forall k :: 0 <= k < best && jobs[k].1.operation == op ==> jobs[k].1.createdAt < recentDate.value)
    {
      if jobs[i].1.operation == op {
        if recentDate.None? || jobs[i].1.createdAt > recentDate.value {
          recentDate := Some(jobs[i].1.createdAt);
          jid := Some(jobs[i].0);
          best := i;
        }
      }
    }
    if jid.None? {
      return Failure(NoMatchingJob(op));
    }
    r := Success(jid.value);
  }

  /** The id of the latest job of the requested type. The jobs are parsed
      first, so a malformed or missing timestamp anywhere fails before the
      type is even checked. */
  method GetMostRecentJob(raw: seq<RawJob>, parse: Parser, jobType: string) returns (r: Result<Id>)
    ensures r.Success? <==>
      (forall k :: 0 <= k < |raw| ==> Parses(raw[k], parse))
      && JobOperation(jobType).Some?
      && exists k :: 0 <= k < |raw| && raw[k].operation == JobOperation(jobType).value
    ensures r.Success? ==>
      exists k :: 0 <= k < |raw| && raw[k].id == r.value && raw[k].operation == JobOperation(jobType).value
        && (forall j :: 0 <= j < |raw| && raw[j].operation == raw[k].operation ==>
              ParsedJob(raw[j], parse).1.createdAt <= ParsedJob(raw[k], parse).1.createdAt)
        && (forall j :: 0 <= j < k && raw[j].operation == raw[k].operation ==>
              ParsedJob(raw[j], parse).1.createdAt < ParsedJob(raw[k], parse).1.createdAt)
    ensures !(forall k :: 0 <= k < |raw| ==> Parses(raw[k], parse)) ==> r.Failure? && r.error.MalformedTimestamp?
    ensures (forall k :: 0 <= k < |raw| ==> Parses(raw[k], parse)) && JobOperation(jobType).None? ==>
      r == Failure(UnsupportedJobType(jobType))
    ensures ((forall k :: 0 <= k < |raw| ==> Parses(raw[k], parse)) && JobOperation(jobType).Some?
             && (forall k :: 0 <= k < |raw| ==> raw[k].operation != JobOperation(jobType).value)) ==>
      r == Failure(NoMatchingJob(JobOperation(jobType).value))
  {
    var parsed := ParseVolumeJobs(raw, parse);
    if parsed.Failure? {
      return Failure(parsed.error);
    }
    var op := JobOperation(jobType);
    if op.None? {
      return Failure(UnsupportedJobType(jobType));
    }
    r := SelectMostRecent(parsed.value, op.value);
  }

  /** The corrected `get_most_recent_job`: jobs still running take part in
      the selection instead of making it fail. */
  method GetMostRecentJobTolerant(raw: seq<RawJob>, parse: Parser, jobType: string) returns (r: Result<Id>)
    ensures r.Success? <==>
      (forall k :: 0 <= k < |raw| ==> ParsesTolerant(raw[k], parse))
      && JobOperation(jobType).Some?
      && exists k :: 0 <= k < |raw| && raw[k].operation == JobOperation(jobType).value
    ensures r.Success? ==>
      exists k :: 0 <= k < |raw| && raw[k].id == r.value && raw[k].operation == JobOperation(jobType).value
        && (forall j :: 0 <= j < |raw| && raw[j].operation == raw[k].operation ==>
              TolerantJob(raw[j], parse).1.createdAt <= TolerantJob(raw[k], parse).1.createdAt)
        && (forall j :: 0 <= j < k && raw[j].operation == raw[k].operation ==>
              TolerantJob(raw[j], parse).1.createdAt < TolerantJob(raw[k], parse).1.createdAt)
    ensures !(forall k :: 0 <= k < |raw| ==> ParsesTolerant(raw[k], parse)) ==> r.Failure? && r.error.MalformedTimestamp?
    ensures (forall k :: 0 <= k < |raw| ==> ParsesTolerant(raw[k], parse)) && JobOperation(jobType).None? ==>
      r == Failure(UnsupportedJobType(jobType))
    ensures ((forall k :: 0 <= k < |raw| ==> ParsesTolerant(raw[k], parse)) && JobOperation(jobType).Some?
             && (forall k :: 0 <= k < |raw| ==> raw[k].operation != JobOperation(jobType).value)) ==>
      r == Failure(NoMatchingJob(JobOperation(jobType).value))
  {
    var parsed := ParseVolumeJobsTolerant(raw, parse);
    if parsed.Failure? {
      return Failure(parsed.error);
    }
    var op := JobOperation(jobType);
    if op.None? {
      return Failure(UnsupportedJobType(jobType));
    }
    r := SelectMostRecent(parsed.value, op.value);
  }

  // ---------------------------------------------------------------------
  // download_job_result (status and result-job selection)
  // ---------------------------------------------------------------------

  /** The fields of `get_job_info` that the download decision reads; the
      children are (id, operation) pairs in the order the service lists them. */
  datatype JobInfo = JobInfo(operation: string, completedAt: Option<string>, children: Table<string>)

  datatype JobStatus = Complete | Incomplete

  /** A job is complete exactly when `completedAt` is neither null nor "". */
  function Status(completedAt: Option<string>): (status: JobStatus)
    ensures status == Complete <==> completedAt.Some? && completedAt.value != ""
  {
    if Truthy(completedAt) then Complete else Incomplete
  }

  function OperationIs(op: string): ((Id, string)) -> bool {
    (e: (Id, string)) => e.1 == op
  }

  /** The status of a job and the job whose result file would be fetched:
      none unless the job is complete and lists or hashes; for a
      list-and-hash parent, its last hashing child when it has one;
      otherwise the job itself. */
  method DownloadJobResult(jobId: Id, job: JobInfo) returns (status: JobStatus, resultJob: Option<Id>)
    ensures status == Status(job.completedAt)
    ensures resultJob.Some? <==>
      status == Complete && job.operation in [VOLUME_LIST, VOLUME_HASH, VOLUME_LIST_AND_HASH]
    ensures resultJob.Some? && job.operation == VOLUME_LIST_AND_HASH
            && (exists k :: 0 <= k < |job.children| && job.children[k].1 == VOLUME_HASH) ==>
      exists k :: 0 <= k < |job.children| && job.children[k] == (resultJob.value, VOLUME_HASH)
                  && forall j :: k < j < |job.children| ==> job.children[j].1 != VOLUME_HASH
    ensures resultJob.Some? && (job.operation != VOLUME_LIST_AND_HASH
            || forall k :: 0 <= k < |job.children| ==> job.children[k].1 != VOLUME_HASH) ==>
      resultJob == Some(jobId)
  {
    var id := jobId;
    if Truthy(job.completedAt) {
      status := Complete;
    } else {
      status := Incomplete;
    }
    resultJob := None;
    if status == Complete {
      if job.operation in [VOLUME_LIST, VOLUME_HASH, VOLUME_LIST_AND_HASH] {
        if job.operation == VOLUME_LIST_AND_HASH && |job.children| != 0 {
          for i := 0 to |job.children|
            invariant id == match LastMatch(job.children[..i], OperationIs(VOLUME_HASH))
                            case Some(c) => c case None => jobId
          {
            assert job.children[..i + 1][..i] == job.children[..i];
            if job.children[i].1 == VOLUME_HASH {
              id := job.children[i].0;
            }
          }
          assert job.children[..|job.children|] == job.children;
        }
        LastMatchFacts(job.children, OperationIs(VOLUME_HASH));
        resultJob := Some(id);
      }
    }
  }

  // ---------------------------------------------------------------------
  // get_study_from_volume
  // ---------------------------------------------------------------------

  /** A study of the viewer's catalog with the names of its volumes. */
  datatype StudyEntry = StudyEntry(id: Id, volumeNames: seq<string>)

  /** The catalog query's answer: organizations, each a list of studies. */
  type Catalog = seq<seq<StudyEntry>>

  /** One copy of `id` for every volume of the study named `v`. */
  function NameHits(id: Id, names: seq<string>, v: string): (hits: seq<Id>)
    ensures forall k :: 0 <= k < |hits| ==> hits[k] == id
  {
    if names == [] then []
    else
      var last := names[|names| - 1];
      NameHits(id, names[..|names| - 1], v) + (if last == v then [id] else [])
  }

  /** A study is collected once per volume it holds under that name. */
  lemma {:induction false} NameHitsCount(id: Id, names: seq<string>, v: string)
    ensures |NameHits(id, names, v)| == multiset(names)[v]
  {
    if names != [] {
      var last := names[|names| - 1];
      assert names == names[..|names| - 1] + [last];
      NameHitsCount(id, names[..|names| - 1], v);
    }
  }

  /** The study ids collected over one organization's studies. */
  function StudyHits(studies: seq<StudyEntry>, v: string): seq<Id> {
    if studies == [] then []
    else
      var last := studies[|studies| - 1];
      StudyHits(studies[..|studies| - 1], v) + NameHits(last.id, last.volumeNames, v)
  }

  /** Every study id the catalog lists, once per volume named `v`, in
      catalog order. */
  function CatalogHits(orgs: Catalog, v: string): seq<Id> {
    if orgs == [] then []
    else CatalogHits(orgs[..|orgs| - 1], v) + StudyHits(orgs[|orgs| - 1], v)
  }

  /** A study id is collected exactly when that study holds a volume named `v`. */
  lemma {:induction false} StudyHitsMembers(studies: seq<StudyEntry>, v: string)
    ensures forall x :: x in StudyHits(studies, v) <==>
      exists k :: 0 <= k < |studies| && studies[k].id == x && v in studies[k].volumeNames
  {
    if studies != [] {
      var last := studies[|studies| - 1];
      var init := studies[..|studies| - 1];
      StudyHitsMembers(init, v);
      var here := NameHits(last.id, last.volumeNames, v);
      NameHitsCount(last.id, last.volumeNames, v);
      assert v in last.volumeNames <==> |here| > 0;
      var hits := StudyHits(studies, v);
      assert hits == StudyHits(init, v) + here;
      forall x | x in hits
        ensures exists k :: 0 <= k < |studies| && studies[k].id == x && v in studies[k].volumeNames
      {
        if x in StudyHits(init, v) {
          var k :| 0 <= k < |init| && init[k].id == x && v in init[k].volumeNames;
          assert studies[k] == init[k];
        } else {
          assert x == last.id;
          assert studies[|studies| - 1] == last;
        }
      }
      forall k | 0 <= k < |studies| && v in studies[k].volumeNames
        ensures studies[k].id in hits
      {
        if k < |init| {
          assert init[k] == studies[k];
        } else {
          assert here[0] == last.id;
        }
      }
    }
  }

  /** Some organization lists study `x` with a volume named `v`. */
  ghost predicate HoldsVolume(orgs: Catalog, x: Id, v: string) {
    exists o, k :: 0 <= o < |orgs| && 0 <= k < |orgs[o]| && orgs[o][k].id == x && v in orgs[o][k].volumeNames
  }

  /** A study id is collected from the catalog exactly when some
      organization lists that study with a volume named `v`. */
  lemma {:induction false} CatalogHitsMembers(orgs: Catalog, v: string)
    ensures forall x :: x in CatalogHits(orgs, v) <==> HoldsVolume(orgs, x, v)
  {
    if orgs != [] {
      var init := orgs[..|orgs| - 1];
      var lastOrg := orgs[|orgs| - 1];
      CatalogHitsMembers(init, v);
      StudyHitsMembers(lastOrg, v);
      var hits := CatalogHits(orgs, v);
      forall x | x in hits
        ensures exists o, k :: 0 <= o < |orgs| && 0 <= k < |orgs[o]| && orgs[o][k].id == x && v in orgs[o][k].volumeNames
      {
        if x in CatalogHits(init, v) {
          var o, k :| 0 <= o < |init| && 0 <= k < |init[o]| && init[o][k].id == x && v in init[o][k].volumeNames;
          assert orgs[o] == init[o];
        } else {
          var k :| 0 <= k < |lastOrg| && lastOrg[k].id == x && v in lastOrg[k].volumeNames;
          assert orgs[|orgs| - 1] == lastOrg;
        }
      }
      forall o, k | 0 <= o < |orgs| && 0 <= k < |orgs[o]| && v in orgs[o][k].volumeNames
        ensures orgs[o][k].id in hits
      {
        if o < |init| {
          assert init[o] == orgs[o];
        }
      }
    }
  }

  /** Distinct elements never outnumber entries. */
  lemma {:induction false} ToSetCard<T>(s: seq<T>)
    ensures |ToSet(s)| <= |s|
  {
    if s != [] {
      var init := s[..|s| - 1];
      ToSetCard(init);
      assert ToSet(s) == ToSet(init) + {s[|s| - 1]};
    }
  }

  const VOLUME_NOT_FOUND := "Volume not found"
  const LOADED_TWICE_IN_ONE_STUDY := "Volume loaded multiple times in one study"
  const LOADED_TO_MULTIPLE_STUDIES := "Volume loaded to multiple studies"

  /** The three nested scans of `get_study_from_volume`: every study id,
      once per volume of that study named `volumeName`, in catalog order. */
  method CollectStudyIds(orgs: Catalog, volumeName: string) returns (studyIds: seq<Id>)
    ensures studyIds == CatalogHits(orgs, volumeName)
  {
    studyIds := [];
    for i := 0 to |orgs|
      invariant studyIds == CatalogHits(orgs[..i], volumeName)
    {
      assert orgs[..i + 1][..i] == orgs[..i];
      var studies := orgs[i];
      for j := 0 to |studies|
        invariant studyIds == CatalogHits(orgs[..i], volumeName) + StudyHits(studies[..j], volumeName)
      {
        assert studies[..j + 1][..j] == studies[..j];
        var study := studies[j];
        var names := study.volumeNames;
        ghost var before := studyIds;
        for n := 0 to |names|
          invariant studyIds == before + NameHits(study.id, names[..n], volumeName)
        {
          assert names[..n + 1][..n] == names[..n];
          if names[n] == volumeName {
            studyIds := studyIds + [study.id];
          }
        }
        assert names[..|names|] == names;
        assert StudyHits(studies[..j + 1], volumeName)
               == StudyHits(studies[..j], volumeName) + NameHits(study.id, names, volumeName);
      }
      assert studies[..|studies|] == studies;
    }
    assert orgs[..|orgs|] == orgs;
  }

  /** The studies holding a volume of the given name and a warning: none
      when it is held exactly once, otherwise which of the three anomalies
      it is. With several hits the ids are de-duplicated. */
  method GetStudyFromVolume(orgs: Catalog, volumeName: string) returns (studyIds: seq<Id>, message: Option<string>)
    ensures ToSet(studyIds) == ToSet(CatalogHits(orgs, volumeName))
    ensures NoDuplicates(studyIds)
    ensures |CatalogHits(orgs, volumeName)| <= 1 ==> studyIds == CatalogHits(orgs, volumeName)
    ensures message == None <==> |CatalogHits(orgs, volumeName)| == 1
    ensures message == Some(VOLUME_NOT_FOUND) <==> CatalogHits(orgs, volumeName) == []
    ensures message == Some(LOADED_TWICE_IN_ONE_STUDY) <==>
      |CatalogHits(orgs, volumeName)| > 1 && |ToSet(CatalogHits(orgs, volumeName))| == 1
    ensures message == Some(LOADED_TO_MULTIPLE_STUDIES) <==> |ToSet(CatalogHits(orgs, volumeName))| > 1
    ensures message == None || message == Some(VOLUME_NOT_FOUND)
            || message == Some(LOADED_TWICE_IN_ONE_STUDY) || message == Some(LOADED_TO_MULTIPLE_STUDIES)
  {
    message := None;
    studyIds := CollectStudyIds(orgs, volumeName);
    ghost var hits := studyIds;
    ToSetCard(hits);
    if |studyIds| == 0 {
      assert ToSet(hits) == {};
      message := Some(VOLUME_NOT_FOUND);
    } else if |studyIds| > 1 {
      assert hits[0] in ToSet(hits);
      studyIds := ListOfSet(studyIds);
      NoDuplicatesCard(studyIds);
      if |studyIds| == 1 {
        message := Some(LOADED_TWICE_IN_ONE_STUDY);
      } else {
        message := Some(LOADED_TO_MULTIPLE_STUDIES);
      }
    } else {
      assert studyIds == [studyIds[0]];
      assert ToSet(studyIds) == {studyIds[0]};
    }
  }

  /** "Volume not found" means that no study holds the volume. */
  lemma VolumeNotFoundMeaning(orgs: Catalog, v: string)
    ensures CatalogHits(orgs, v) == [] <==> forall x :: !HoldsVolume(orgs, x, v)
  {
    CatalogHitsMembers(orgs, v);
    var hits := CatalogHits(orgs, v);
    if hits != [] {
      assert HoldsVolume(orgs, hits[0], v);
    }
  }

  /** "Volume loaded to multiple studies" means that two different studies
      hold the volume. */
  lemma MultipleStudiesMeaning(orgs: Catalog, v: string)
    ensures |ToSet(CatalogHits(orgs, v))| > 1 <==>
      exists x, y :: x != y && HoldsVolume(orgs, x, v) && HoldsVolume(orgs, y, v)
  {
    CatalogHitsMembers(orgs, v);
    var studies := ToSet(CatalogHits(orgs, v));
    SetSeveral(studies);
    if |studies| > 1 {
      var x, y :| x in studies && y in studies && x != y;
      assert HoldsVolume(orgs, x, v) && HoldsVolume(orgs, y, v);
    }
    if exists x, y :: x != y && HoldsVolume(orgs, x, v) && HoldsVolume(orgs, y, v) {
      var x, y :| x != y && HoldsVolume(orgs, x, v) && HoldsVolume(orgs, y, v);
      assert x in studies && y in studies;
    }
  }

  /** A single distinct hit means that exactly one study holds the volume;
      with several hits that is "loaded multiple times in one study". */
  lemma OneStudyMeaning(orgs: Catalog, v: string)
    ensures |ToSet(CatalogHits(orgs, v))| == 1 <==>
      exists x :: HoldsVolume(orgs, x, v) && forall y :: HoldsVolume(orgs, y, v) ==> y == x
  {
    CatalogHitsMembers(orgs, v);
    var studies := ToSet(CatalogHits(orgs, v));
    SetSingle(studies);
    if |studies| == 1 {
      var x :| x in studies && forall y :: y in studies ==> y == x;
      assert HoldsVolume(orgs, x, v);
      forall y | HoldsVolume(orgs, y, v)
        ensures y == x
      {
        assert y in studies;
      }
    }
    if exists x :: HoldsVolume(orgs, x, v) && forall y :: HoldsVolume(orgs, y, v) ==> y == x {
      var x :| HoldsVolume(orgs, x, v) && forall y :: HoldsVolume(orgs, y, v) ==> y == x;
      assert x in studies;
      forall y | y in studies
        ensures y == x
      {
        assert HoldsVolume(orgs, y, v);
      }
    }
  }

  // ---------------------------------------------------------------------
  // load_and_hash_volume
  // ---------------------------------------------------------------------

  /** What the shared opening of the hashing workflows resolves: the study,
      its organization, the billing group and the study's volumes. */
  datatype Context = Context(studyId: Id, orgId: Id, billingId: Id, volumes: Table<string>)

  /** The opening steps of `load_and_hash_volume` and of the hash-volume
      script, from an empty trace: `get_study_id`, `get_org_id_from_study`,
      `get_billing_id` and `get_study_volumes`, each aborting the rest. */
  ghost function PreludeRun(s: Server, studyName: string, billing: Option<string>): Run<Context> {
    var c1 := [Query(AllStudies)];
    match StudyIdOf(s.studies, studyName)
    case Failure(e) => Run(Failure(e), c1)
    case Success(studyId) =>
      var c2 := c1 + [Query(OrgOfStudy(studyId))];
      match s.OrgOf(studyId)
      case Failure(e) => Run(Failure(e), c2)
      case Success(orgId) =>
        var c3 := c2 + [Query(BillingGroups(orgId))];
        match BillingIdOf(s, orgId, billing)
        case Failure(e) => Run(Failure(e), c3)
        case Success(billingId) =>
          var c4 := c3 + [Query(StudyVolumes(studyId))];
          match s.VolumesOf(studyId)
          case Failure(e) => Run(Failure(e), c4)
          case Success(volumes) => Run(Success(Context(studyId, orgId, billingId, volumes)), c4)
  }

  /** The opening only queries, starting with the studies; when the study
      and organization resolve, the billing groups are queried third. */
  lemma PreludeQueries(s: Server, studyName: string, billing: Option<string>)
    ensures NoMutation(PreludeRun(s, studyName, billing).calls)
    ensures 1 <= |PreludeRun(s, studyName, billing).calls| <= 4
    ensures PreludeRun(s, studyName, billing).calls[0] == Query(AllStudies)
    ensures PreludeRun(s, studyName, billing).outcome.Success? ==>
      var ctx := PreludeRun(s, studyName, billing).outcome.value;
      PreludeRun(s, studyName, billing).calls
        == [Query(AllStudies), Query(OrgOfStudy(ctx.studyId)), Query(BillingGroups(ctx.orgId)), Query(StudyVolumes(ctx.studyId))]
    ensures PreludeRun(s, studyName, billing).outcome.Success? ==>
      var ctx := PreludeRun(s, studyName, billing).outcome.value;
      StudyIdOf(s.studies, studyName) == Success(ctx.studyId) && s.OrgOf(ctx.studyId) == Success(ctx.orgId)
      && BillingIdOf(s, ctx.orgId, billing) == Success(ctx.billingId) && s.VolumesOf(ctx.studyId) == Success(ctx.volumes)
  {
  }

  /** Runs the opening steps against the client. */
  method ResolveContext(client: Client, studyName: string, billing: Option<string>) returns (r: Result<Context>)
    modifies client
    ensures client.trace == old(client.trace) + PreludeRun(client.server, studyName, billing).calls
    ensures r == PreludeRun(client.server, studyName, billing).outcome
  {
    var studies := client.GetAllStudies();
    var studyId := GetStudyId(studies, studyName);
    if studyId.Failure? {
      return Failure(studyId.error);
    }
    var orgId := client.GetOrgIdFromStudy(studyId.value);
    if orgId.Failure? {
      return Failure(orgId.error);
    }
    var billingId := GetBillingId(client, orgId.value, billing);
    if billingId.Failure? {
      return Failure(billingId.error);
    }
    var volumes := client.GetStudyVolumes(studyId.value);
    if volumes.Failure? {
      return Failure(volumes.error);
    }
    r := Success(Context(studyId.value, orgId.value, billingId.value, volumes.value));
  }

  /** The calls and outcome of `load_and_hash_volume`: the opening, then
      `LoadOrReuseRun`. */
  ghost function LoadAndHashRun(s: Server, volumeName: string, studyName: string, region: string,
                                prefix: Option<string>, billing: Option<string>, cred: Option<string>): Run<Id>
  {
    var pre := PreludeRun(s, studyName, billing);
    match pre.outcome
    case Failure(e) => Run(Failure(e), pre.calls)
    case Success(ctx) =>
      var rest := LoadOrReuseRun(s, ctx, volumeName, region, prefix, cred);
      Run(rest.outcome, pre.calls + rest.calls)
  }

  /** After the opening: a volume of that name already in the study (the
      only one so named) is hashed as it is; otherwise the bucket is added
      as a new volume and that one is hashed. */
  ghost function LoadOrReuseRun(s: Server, ctx: Context, volumeName: string, region: string,
                                prefix: Option<string>, cred: Option<string>): Run<Id>
  {
    var existing := VolumeResolution(ctx.volumes, None, Some(volumeName)).value;
    if existing.Some? then ListAndHashRun(s, existing.value, ctx.billingId)
    else CreateAndHashRun(s, ctx, volumeName, region, prefix, cred)
  }

  /** Resolve a credential, create the volume with it, hash the new volume. */
  ghost function CreateAndHashRun(s: Server, ctx: Context, volumeName: string, region: string,
                                  prefix: Option<string>, cred: Option<string>): Run<Id>
  {
    var c5 := [Query(StudyCredentials(ctx.studyId))];
    match CredIdOf(s, ctx.studyId, cred)
    case Failure(e) => Run(Failure(e), c5)
    case Success(credId) =>
      var create := VolumeCreate(VolumeCreateInput(volumeName, region, ctx.studyId, credId, prefix));
      var c6 := c5 + [Mutate(create)];
      match MutationOutcome(s.respond(create), "volumeCreate")
      case Failure(e) => Run(Failure(e), c6)
      case Success(volumeId) =>
        var hash := ListAndHashRun(s, volumeId, ctx.billingId);
        Run(hash.outcome, c6 + hash.calls)
  }

  /** Adds the bucket as a volume of the study and hashes it. */
  method CreateAndHash(client: Client, ctx: Context, volumeName: string, region: string,
                       prefix: Option<string>, cred: Option<string>) returns (r: Result<Id>)
    modifies client
    ensures client.trace == old(client.trace) + CreateAndHashRun(client.server, ctx, volumeName, region, prefix, cred).calls
    ensures r == CreateAndHashRun(client.server, ctx, volumeName, region, prefix, cred).outcome
  {
    var credId := GetCredId(client, ctx.studyId, cred);
    if credId.Failure? {
      return Failure(credId.error);
    }
    var added := AddVolume(client, ctx.studyId, prefix, region, volumeName, credId.value);
    if added.Failure? {
      return Failure(added.error);
    }
    r := ListAndHashVolume(client, added.value, ctx.billingId);
  }

  /** Hashes the study's volume of that name, adding it first unless it is
      already there. */
  method LoadOrReuse(client: Client, ctx: Context, volumeName: string, region: string,
                     prefix: Option<string>, cred: Option<string>) returns (r: Result<Id>)
    modifies client
    ensures client.trace == old(client.trace) + LoadOrReuseRun(client.server, ctx, volumeName, region, prefix, cred).calls
    ensures r == LoadOrReuseRun(client.server, ctx, volumeName, region, prefix, cred).outcome
  {
    var found := ProcessVolumes(ctx.volumes, None, Some(volumeName));
    if found.value.None? {
      r := CreateAndHash(client, ctx, volumeName, region, prefix, cred);
    } else {
      r := ListAndHashVolume(client, found.value.value, ctx.billingId);
    }
  }

  /** Loads (if needed) and hashes a bucket; every failure is caught and
      turns into "no job id". */
  method LoadAndHashVolume(client: Client, volumeName: string, studyName: string, region: string,
                           prefix: Option<string>, billing: Option<string>, cred: Option<string>)
    returns (jobId: Option<Id>)
    modifies client
    ensures client.trace == old(client.trace)
                            + LoadAndHashRun(client.server, volumeName, studyName, region, prefix, billing, cred).calls
    ensures jobId.Some? <==> LoadAndHashRun(client.server, volumeName, studyName, region, prefix, billing, cred).outcome.Success?
    ensures jobId.Some? ==>
      jobId.value == LoadAndHashRun(client.server, volumeName, studyName, region, prefix, billing, cred).outcome.value
  {
    jobId := None;
    ghost var run := LoadAndHashRun(client.server, volumeName, studyName, region, prefix, billing, cred);
    ghost var pre := PreludeRun(client.server, studyName, billing);
    var ctx := ResolveContext(client, studyName, billing);
    if ctx.Failure? {
      assert run == Run(Failure(ctx.error), pre.calls);
      return;
    }
    assert run == Run(LoadOrReuseRun(client.server, ctx.value, volumeName, region, prefix, cred).outcome,
                      pre.calls + LoadOrReuseRun(client.server, ctx.value, volumeName, region, prefix, cred).calls);
    var job := LoadOrReuse(client, ctx.value, volumeName, region, prefix, cred);
    if job.Success? {
      jobId := Some(job.value);
    }
  }

  /** A failure in the opening steps is the outcome, and nothing is created
      or hashed. */
  lemma LoadAndHashOpeningFails(s: Server, volumeName: string, studyName: string, region: string,
                                prefix: Option<string>, billing: Option<string>, cred: Option<string>)
    requires PreludeRun(s, studyName, billing).outcome.Failure?
    ensures LoadAndHashRun(s, volumeName, studyName, region, prefix, billing, cred).outcome
            == Failure(PreludeRun(s, studyName, billing).outcome.error)
    ensures NoMutation(LoadAndHashRun(s, volumeName, studyName, region, prefix, billing, cred).calls)
  {
    PreludeQueries(s, studyName, billing);
  }

  /** After a successful opening the workflow continues with `LoadOrReuseRun`,
      whose mutations are all of the workflow's. */
  lemma LoadAndHashAfterOpening(s: Server, volumeName: string, studyName: string, region: string,
                                prefix: Option<string>, billing: Option<string>, cred: Option<string>, ctx: Context)
    requires PreludeRun(s, studyName, billing).outcome == Success(ctx)
    ensures var pre := PreludeRun(s, studyName, billing);
      var rest := LoadOrReuseRun(s, ctx, volumeName, region, prefix, cred);
      var run := LoadAndHashRun(s, volumeName, studyName, region, prefix, billing, cred);
      && run == Run(rest.outcome, pre.calls + rest.calls)
      && pre.calls == [Query(AllStudies), Query(OrgOfStudy(ctx.studyId)), Query(BillingGroups(ctx.orgId)), Query(StudyVolumes(ctx.studyId))]
      && Mutations(run.calls) == Mutations(rest.calls)
  {
    var pre := PreludeRun(s, studyName, billing);
    var rest := LoadOrReuseRun(s, ctx, volumeName, region, prefix, cred);
    PreludeQueries(s, studyName, billing);
    MutationsAfterQueries(pre.calls, rest.calls);
  }

  /** With exactly one volume of that name, the rest of the workflow hashes it. */
  lemma ReuseRest(s: Server, ctx: Context, volumeName: string, region: string,
                  prefix: Option<string>, cred: Option<string>)
    requires UniqueMatch(ctx.volumes, VolumeNamed(Some(volumeName)))
    ensures exists k :: 0 <= k < |ctx.volumes| && ctx.volumes[k].1 == volumeName
                        && LoadOrReuseRun(s, ctx, volumeName, region, prefix, cred)
                           == ListAndHashRun(s, ctx.volumes[k].0, ctx.billingId)
  {
    MatchingSingle(ctx.volumes, VolumeNamed(Some(volumeName)));
    var found := Matching(ctx.volumes, VolumeNamed(Some(volumeName)));
    assert found[0] in found;
    var k :| 0 <= k < |ctx.volumes| && ctx.volumes[k].0 == found[0] && VolumeNamed(Some(volumeName))(ctx.volumes[k]);
    assert VolumeResolution(ctx.volumes, None, Some(volumeName)) == Success(Some(found[0]));
  }

  /** Without exactly one volume of that name, the rest of the workflow creates one. */
  lemma CreateRest(s: Server, ctx: Context, volumeName: string, region: string,
                   prefix: Option<string>, cred: Option<string>)
    requires !UniqueMatch(ctx.volumes, VolumeNamed(Some(volumeName)))
    ensures LoadOrReuseRun(s, ctx, volumeName, region, prefix, cred) == CreateAndHashRun(s, ctx, volumeName, region, prefix, cred)
  {
    MatchingSingle(ctx.volumes, VolumeNamed(Some(volumeName)));
  }

  /** The volume already in the study under that name, when it is the only
      one, is hashed and nothing is created; no credential is looked up. */
  lemma LoadAndHashReuses(s: Server, volumeName: string, studyName: string, region: string,
                          prefix: Option<string>, billing: Option<string>, cred: Option<string>, ctx: Context)
    requires PreludeRun(s, studyName, billing).outcome == Success(ctx)
    requires UniqueMatch(ctx.volumes, VolumeNamed(Some(volumeName)))
    ensures var run := LoadAndHashRun(s, volumeName, studyName, region, prefix, billing, cred);
      exists k :: 0 <= k < |ctx.volumes| && ctx.volumes[k].1 == volumeName
        && Mutations(run.calls) == [VolumeListAndHash(ctx.volumes[k].0, ctx.billingId)]
        && run.outcome == MutationOutcome(s.respond(VolumeListAndHash(ctx.volumes[k].0, ctx.billingId)), "volumeListAndHash")
    ensures var run := LoadAndHashRun(s, volumeName, studyName, region, prefix, billing, cred);
      forall k :: 0 <= k < |run.calls| ==> !run.calls[k].Query? || !run.calls[k].query.StudyCredentials?
  {
    var pre := PreludeRun(s, studyName, billing);
    var run := LoadAndHashRun(s, volumeName, studyName, region, prefix, billing, cred);
    LoadAndHashAfterOpening(s, volumeName, studyName, region, prefix, billing, cred, ctx);
    ReuseRest(s, ctx, volumeName, region, prefix, cred);
    var k :| 0 <= k < |ctx.volumes| && ctx.volumes[k].1 == volumeName
      && LoadOrReuseRun(s, ctx, volumeName, region, prefix, cred) == ListAndHashRun(s, ctx.volumes[k].0, ctx.billingId);
    var hash := VolumeListAndHash(ctx.volumes[k].0, ctx.billingId);
    MutationsOne(Mutate(hash));
    assert run.calls == pre.calls + [Mutate(hash)];
    forall j | 0 <= j < |run.calls|
      ensures !run.calls[j].Query? || !run.calls[j].query.StudyCredentials?
    {
      if j < 4 {
        assert run.calls[j] == pre.calls[j];
      } else {
        assert run.calls[j] == Mutate(hash);
      }
    }
  }

  /** The calls of the creating branch: the credential query, then (if the
      credential resolves) the creation, then (if that succeeds) the hash. */
  lemma CreateAndHashCalls(s: Server, ctx: Context, volumeName: string, region: string,
                           prefix: Option<string>, cred: Option<string>)
    ensures var rest := CreateAndHashRun(s, ctx, volumeName, region, prefix, cred);
      |rest.calls| > 0 && rest.calls[0] == Query(StudyCredentials(ctx.studyId))
    ensures var rest := CreateAndHashRun(s, ctx, volumeName, region, prefix, cred);
      CredIdOf(s, ctx.studyId, cred).Failure? ==>
        rest == Run(CredIdOf(s, ctx.studyId, cred), [Query(StudyCredentials(ctx.studyId))])
    ensures var rest := CreateAndHashRun(s, ctx, volumeName, region, prefix, cred);
      CredIdOf(s, ctx.studyId, cred).Success? ==>
        var create := VolumeCreate(VolumeCreateInput(volumeName, region, ctx.studyId, CredIdOf(s, ctx.studyId, cred).value, prefix));
        match MutationOutcome(s.respond(create), "volumeCreate")
        case Failure(e) => Mutations(rest.calls) == [create] && rest.outcome == Failure(e)
        case Success(volumeId) =>
          Mutations(rest.calls) == [create, VolumeListAndHash(volumeId, ctx.billingId)]
          && rest.outcome == MutationOutcome(s.respond(VolumeListAndHash(volumeId, ctx.billingId)), "volumeListAndHash")
  {
    var rest := CreateAndHashRun(s, ctx, volumeName, region, prefix, cred);
    var lookup := Query(StudyCredentials(ctx.studyId));
    var credId := CredIdOf(s, ctx.studyId, cred);
    if credId.Failure? {
      assert rest == Run(credId, [lookup]);
    } else {
      var create := VolumeCreate(VolumeCreateInput(volumeName, region, ctx.studyId, credId.value, prefix));
      MutationsOne(lookup);
      MutationsSnoc([lookup], Mutate(create));
      match MutationOutcome(s.respond(create), "volumeCreate")
      case Failure(e) =>
        assert rest == Run(Failure(e), [lookup, Mutate(create)]);
      case Success(volumeId) =>
        var hash := VolumeListAndHash(volumeId, ctx.billingId);
        assert rest == Run(MutationOutcome(s.respond(hash), "volumeListAndHash"), [lookup, Mutate(create), Mutate(hash)]);
        MutationsSnoc([lookup, Mutate(create)], Mutate(hash));
    }
  }

  /** Without a unique volume of that name, the study's credential is looked
      up next; nothing is created unless it resolves, and then exactly one
      volume is created, for this bucket, region, study and credential,
      followed (if that succeeds) by hashing the new volume. */
  lemma LoadAndHashCreates(s: Server, volumeName: string, studyName: string, region: string,
                           prefix: Option<string>, billing: Option<string>, cred: Option<string>, ctx: Context)
    requires PreludeRun(s, studyName, billing).outcome == Success(ctx)
    requires !UniqueMatch(ctx.volumes, VolumeNamed(Some(volumeName)))
    ensures var run := LoadAndHashRun(s, volumeName, studyName, region, prefix, billing, cred);
      |run.calls| > 4 && run.calls[4] == Query(StudyCredentials(ctx.studyId))
    ensures var run := LoadAndHashRun(s, volumeName, studyName, region, prefix, billing, cred);
      CredIdOf(s, ctx.studyId, cred).Failure? ==>
        run.outcome == CredIdOf(s, ctx.studyId, cred) && NoMutation(run.calls)
    ensures var run := LoadAndHashRun(s, volumeName, studyName, region, prefix, billing, cred);
      CredIdOf(s, ctx.studyId, cred).Success? ==>
        var create := VolumeCreate(VolumeCreateInput(volumeName, region, ctx.studyId, CredIdOf(s, ctx.studyId, cred).value, prefix));
        match MutationOutcome(s.respond(create), "volumeCreate")
        case Failure(e) => Mutations(run.calls) == [create] && run.outcome == Failure(e)
        case Success(volumeId) =>
          Mutations(run.calls) == [create, VolumeListAndHash(volumeId, ctx.billingId)]
          && run.outcome == MutationOutcome(s.respond(VolumeListAndHash(volumeId, ctx.billingId)), "volumeListAndHash")
  {
    var pre := PreludeRun(s, studyName, billing);
    var run := LoadAndHashRun(s, volumeName, studyName, region, prefix, billing, cred);
    LoadAndHashAfterOpening(s, volumeName, studyName, region, prefix, billing, cred, ctx);
    CreateRest(s, ctx, volumeName, region, prefix, cred);
    CreateAndHashCalls(s, ctx, volumeName, region, prefix, cred);
    var rest := CreateAndHashRun(s, ctx, volumeName, region, prefix, cred);
    assert run.calls == pre.calls + rest.calls;
    assert run.calls[4] == rest.calls[0];
    if CredIdOf(s, ctx.studyId, cred).Failure? {
      assert run.calls == pre.calls + [Query(StudyCredentials(ctx.studyId))];
    }
  }
}
