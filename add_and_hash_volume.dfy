/** The add-and-hash script: resolve the study, an AWS credential, the
    organization and a billing group; unless told to skip it, refuse a
    bucket the study already holds as a volume; then create the volume and
    start a list-and-hash job on it. Argument parsing, printing and the
    client set-up are outside the model; the parsed arguments are a value
    and the service is the `GraphClient` oracle. */
module AddAndHashVolume {
  import opened Common
  import opened GraphClient
  import opened QueryFunctions

  /** The parsed command line; `region` defaults to "us-east-1" in the
      script and is given here. */
  datatype Args = Args(prefix: Option<string>, region: string, study: string, bucket: string,
                       credential: Option<string>, billing: Option<string>, skip: bool)

  /** Python's `value in d.values()`. */
  predicate HasValue(t: Table<string>, value: string) {
    exists k :: 0 <= k < |t| && t[k].1 == value
  }

  /** The duplicate-volume check, skipped on request: the study's volumes
      are queried and a bucket already among their names is refused. */
  ghost function ConflictRun(s: Server, studyId: Id, a: Args): Run<()> {
    if a.skip then Run(Success(()), [])
    else
      var c := [Query(StudyVolumes(studyId))];
      match s.VolumesOf(studyId)
      case Failure(e) => Run(Failure(e), c)
      case Success(volumes) =>
        if HasValue(volumes, a.bucket) then Run(Failure(VolumeExists(a.bucket, a.study)), c)
        else Run(Success(()), c)
  }

  /** The resolution steps in the script's order, from an empty trace. */
  ghost function ResolveRun(s: Server, a: Args): Run<(Id, Id, Id)> {
    var c1 := [Query(AllStudies)];
    match StudyIdOf(s.studies, a.study)
    case Failure(e) => Run(Failure(e), c1)
    case Success(studyId) =>
      var c2 := c1 + [Query(StudyCredentials(studyId))];
      match CredIdOf(s, studyId, a.credential)
      case Failure(e) => Run(Failure(e), c2)
      case Success(credId) =>
        var c3 := c2 + [Query(OrgOfStudy(studyId))];
        match s.OrgOf(studyId)
        case Failure(e) => Run(Failure(e), c3)
        case Success(orgId) =>
          var c4 := c3 + [Query(BillingGroups(orgId))];
          match BillingIdOf(s, orgId, a.billing)
          case Failure(e) => Run(Failure(e), c4)
          case Success(billingId) => Run(Success((studyId, credId, billingId)), c4)
  }

  /** After the check: create the volume, then hash the new volume. */
  ghost function CreateThenHashRun(s: Server, a: Args, studyId: Id, credId: Id, billingId: Id): Run<Id> {
    var create := VolumeCreate(VolumeCreateInput(a.bucket, a.region, studyId, credId, a.prefix));
    match MutationOutcome(s.respond(create), "volumeCreate")
    case Failure(e) => Run(Failure(e), [Mutate(create)])
    case Success(volumeId) =>
      var hash := ListAndHashRun(s, volumeId, billingId);
      Run(hash.outcome, [Mutate(create)] + hash.calls)
  }

  /** The calls and outcome of the whole script: the list-and-hash job id. */
  ghost function AddAndHashRun(s: Server, a: Args): Run<Id> {
    var ids := ResolveRun(s, a);
    match ids.outcome
    case Failure(e) => Run(Failure(e), ids.calls)
    case Success(resolved) =>
      var (studyId, credId, billingId) := resolved;
      var check := ConflictRun(s, studyId, a);
      match check.outcome
      case Failure(e) => Run(Failure(e), ids.calls + check.calls)
      case Success(_) =>
        var rest := CreateThenHashRun(s, a, studyId, credId, billingId);
        Run(rest.outcome, ids.calls + check.calls + rest.calls)
  }

  method Resolve(client: Client, a: Args) returns (r: Result<(Id, Id, Id)>)
    modifies client
    ensures client.trace == old(client.trace) + ResolveRun(client.server, a).calls
    ensures r == ResolveRun(client.server, a).outcome
  {
    var studies := client.GetAllStudies();
    var studyId := GetStudyId(studies, a.study);
    if studyId.Failure? {
      return Failure(studyId.error);
    }
    var credId := GetCredId(client, studyId.value, a.credential);
    if credId.Failure? {
      return Failure(credId.error);
    }
    var orgId := client.GetOrgIdFromStudy(studyId.value);
    if orgId.Failure? {
      return Failure(orgId.error);
    }
    var billingId := GetBillingId(client, orgId.value, a.billing);
    if billingId.Failure? {
      return Failure(billingId.error);
    }
    r := Success((studyId.value, credId.value, billingId.value));
  }

  method CheckConflict(client: Client, studyId: Id, a: Args) returns (r: Result<()>)
    modifies client
    ensures client.trace == old(client.trace) + ConflictRun(client.server, studyId, a).calls
    ensures r == ConflictRun(client.server, studyId, a).outcome
  {
    if a.skip {
      return Success(());
    }
    var volumes := client.GetStudyVolumes(studyId);
    if volumes.Failure? {
      return Failure(volumes.error);
    }
    var values := volumes.value;
    var found := false;
    for i := 0 to |values|
      invariant found <==> exists k :: 0 <= k < i && values[k].1 == a.bucket
    {
      if values[i].1 == a.bucket {
        found := true;
      }
    }
    if found {
      return Failure(VolumeExists(a.bucket, a.study));
    }
    r := Success(());
  }

  /** The script's `main`: every failure propagates as an exception would. */
  method AddAndHash(client: Client, a: Args) returns (r: Result<Id>)
    modifies client
    ensures client.trace == old(client.trace) + AddAndHashRun(client.server, a).calls
    ensures r == AddAndHashRun(client.server, a).outcome
  {
    ghost var run := AddAndHashRun(client.server, a);
    ghost var idsRun := ResolveRun(client.server, a);
    var ids := Resolve(client, a);
    if ids.Failure? {
      assert run == Run(Failure(ids.error), idsRun.calls);
      return Failure(ids.error);
    }
    var (studyId, credId, billingId) := ids.value;
    ghost var checkRun := ConflictRun(client.server, studyId, a);
    var check := CheckConflict(client, studyId, a);
    if check.Failure? {
      assert run == Run(Failure(check.error), idsRun.calls + checkRun.calls);
      return Failure(check.error);
    }
    assert run == Run(CreateThenHashRun(client.server, a, studyId, credId, billingId).outcome,
                      idsRun.calls + checkRun.calls + CreateThenHashRun(client.server, a, studyId, credId, billingId).calls);
    var volumeId := AddVolume(client, studyId, a.prefix, a.region, a.bucket, credId);
    if volumeId.Failure? {
      return Failure(volumeId.error);
    }
    r := ListAndHashVolume(client, volumeId.value, billingId);
  }

  /** The resolution queries come first and in this order: studies, the
      study's credentials, its organization, the organization's billing
      groups. */
  lemma ResolutionOrder(s: Server, a: Args)
    requires ResolveRun(s, a).outcome.Success?
    ensures var studyId := ResolveRun(s, a).outcome.value.0;
      |AddAndHashRun(s, a).calls| >= 4
      && AddAndHashRun(s, a).calls[..4]
         == [Query(AllStudies), Query(StudyCredentials(studyId)), Query(OrgOfStudy(studyId)),
             Query(BillingGroups(s.OrgOf(studyId).value))]
  {
    var ids := ResolveRun(s, a);
    var run := AddAndHashRun(s, a);
    assert run.calls[..4] == ids.calls;
  }

  /** The skip flag omits the volume query altogether. */
  lemma SkipOmitsCheck(s: Server, a: Args)
    requires a.skip
    ensures forall k :: 0 <= k < |AddAndHashRun(s, a).calls| ==>
      !AddAndHashRun(s, a).calls[k].Query? || !AddAndHashRun(s, a).calls[k].query.StudyVolumes?
  {
  }

  /** A bucket the study already holds under that name is refused, and
      nothing is created or hashed. */
  lemma ConflictRefused(s: Server, a: Args)
    requires !a.skip
    requires ResolveRun(s, a).outcome.Success?
    requires s.VolumesOf(ResolveRun(s, a).outcome.value.0).Success?
    requires HasValue(s.VolumesOf(ResolveRun(s, a).outcome.value.0).value, a.bucket)
    ensures AddAndHashRun(s, a).outcome == Failure(VolumeExists(a.bucket, a.study))
    ensures NoMutation(AddAndHashRun(s, a).calls)
  {
    var ids := ResolveRun(s, a);
    var check := ConflictRun(s, ids.outcome.value.0, a);
    assert AddAndHashRun(s, a).calls == ids.calls + check.calls;
  }

  /** The resolution and the check only query. */
  lemma ChecksOnlyQuery(s: Server, a: Args)
    ensures NoMutation(ResolveRun(s, a).calls)
    ensures ResolveRun(s, a).outcome.Success? ==> NoMutation(ConflictRun(s, ResolveRun(s, a).outcome.value.0, a).calls)
  {
  }

  /** Nothing is created or hashed unless every name resolved and the
      conflict check passed. */
  lemma NoMutationUntilChecked(s: Server, a: Args)
    ensures Mutations(AddAndHashRun(s, a).calls) != [] ==>
      ResolveRun(s, a).outcome.Success? && ConflictRun(s, ResolveRun(s, a).outcome.value.0, a).outcome.Success?
  {
    var ids := ResolveRun(s, a);
    var run := AddAndHashRun(s, a);
    ChecksOnlyQuery(s, a);
    if ids.outcome.Success? {
      var check := ConflictRun(s, ids.outcome.value.0, a);
      if check.outcome.Failure? {
        assert run.calls == ids.calls + check.calls;
        NoMutationConcat(ids.calls, check.calls);
        QueriesOnly(run.calls);
      }
    } else {
      QueriesOnly(ids.calls);
    }
  }

  /** The mutations after the check: the creation, then its hash. */
  lemma CreateThenHashMutations(s: Server, a: Args, studyId: Id, credId: Id, billingId: Id)
    ensures var create := VolumeCreate(VolumeCreateInput(a.bucket, a.region, studyId, credId, a.prefix));
      var rest := CreateThenHashRun(s, a, studyId, credId, billingId);
      match MutationOutcome(s.respond(create), "volumeCreate")
      case Failure(e) => Mutations(rest.calls) == [create] && rest.outcome == Failure(e)
      case Success(volumeId) =>
        Mutations(rest.calls) == [create, VolumeListAndHash(volumeId, billingId)]
        && rest.outcome == MutationOutcome(s.respond(VolumeListAndHash(volumeId, billingId)), "volumeListAndHash")
  {
    var create := VolumeCreate(VolumeCreateInput(a.bucket, a.region, studyId, credId, a.prefix));
    MutationsOne(Mutate(create));
    match MutationOutcome(s.respond(create), "volumeCreate")
    case Failure(e) =>
    case Success(volumeId) =>
      MutationsSnoc([Mutate(create)], Mutate(VolumeListAndHash(volumeId, billingId)));
  }

  /** Once the names resolve and the check passes, exactly one volume is
      created, for this bucket, region, prefix, study and credential, and
      the only other mutation hashes the volume just created with the
      resolved billing group. */
  lemma CreatesThenHashes(s: Server, a: Args, studyId: Id, credId: Id, billingId: Id)
    requires ResolveRun(s, a).outcome == Success((studyId, credId, billingId))
    requires ConflictRun(s, studyId, a).outcome.Success?
    ensures var create := VolumeCreate(VolumeCreateInput(a.bucket, a.region, studyId, credId, a.prefix));
      match MutationOutcome(s.respond(create), "volumeCreate")
      case Failure(e) => Mutations(AddAndHashRun(s, a).calls) == [create] && AddAndHashRun(s, a).outcome == Failure(e)
      case Success(volumeId) =>
        Mutations(AddAndHashRun(s, a).calls) == [create, VolumeListAndHash(volumeId, billingId)]
        && AddAndHashRun(s, a).outcome == MutationOutcome(s.respond(VolumeListAndHash(volumeId, billingId)), "volumeListAndHash")
  {
    var ids := ResolveRun(s, a);
    var check := ConflictRun(s, studyId, a);
    var rest := CreateThenHashRun(s, a, studyId, credId, billingId);
    assert AddAndHashRun(s, a) == Run(rest.outcome, ids.calls + check.calls + rest.calls);
    ChecksOnlyQuery(s, a);
    NoMutationConcat(ids.calls, check.calls);
    MutationsAfterQueries(ids.calls + check.calls, rest.calls);
    CreateThenHashMutations(s, a, studyId, credId, billingId);
  }
}
