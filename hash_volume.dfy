/** The hash-volume script: resolve the study, its organization, a billing
    group and the study's volumes, pick one volume by name or by id, and
    start a list-and-hash job on it. Argument parsing, the printed messages
    and the client set-up are outside the model; the arguments are
    parameters and the service is the `GraphClient` oracle. */
module HashVolume {
  import opened Common
  import opened GraphClient
  import opened QueryFunctions

  /** The volume the script settles on, once the opening has resolved: by
      name when a name is given (an id given alongside is ignored), else
      by id. */
  function ChosenVolume(volumes: Table<string>, name: Option<string>, vid: Option<string>): Result<Option<Id>> {
    if Truthy(name) then VolumeResolution(volumes, None, name) else VolumeResolution(volumes, vid, None)
  }

  /** The calls and outcome of the script: the job id when a job was
      started, None when the name denotes no single volume. */
  ghost function HashRun(s: Server, studyName: string, name: Option<string>, vid: Option<string>,
                         billing: Option<string>): Run<Option<Id>>
  {
    if !(Truthy(name) || Truthy(vid)) then Run(Failure(NoVolumeSelector), [])
    else
      var pre := PreludeRun(s, studyName, billing);
      match pre.outcome
      case Failure(e) => Run(Failure(e), pre.calls)
      case Success(ctx) =>
        match ChosenVolume(ctx.volumes, name, vid)
        case Failure(e) => Run(Failure(e), pre.calls)
        case Success(chosen) =>
          if chosen.None? then Run(Success(None), pre.calls)
          else
            var hash := ListAndHashRun(s, chosen.value, ctx.billingId);
            match hash.outcome
            case Failure(e) => Run(Failure(e), pre.calls + hash.calls)
            case Success(jobId) => Run(Success(Some(jobId)), pre.calls + hash.calls)
  }

  /** The script's `main`. */
  method HashStudyVolume(client: Client, studyName: string, name: Option<string>, vid: Option<string>,
                         billing: Option<string>) returns (r: Result<Option<Id>>)
    modifies client
    ensures client.trace == old(client.trace) + HashRun(client.server, studyName, name, vid, billing).calls
    ensures r == HashRun(client.server, studyName, name, vid, billing).outcome
  {
    if !(Truthy(name) || Truthy(vid)) {
      return Failure(NoVolumeSelector);
    }
    ghost var run := HashRun(client.server, studyName, name, vid, billing);
    ghost var pre := PreludeRun(client.server, studyName, billing);
    var ctx := ResolveContext(client, studyName, billing);
    if ctx.Failure? {
      assert run == Run(Failure(ctx.error), pre.calls);
      return Failure(ctx.error);
    }
    var volumeId: Result<Option<Id>>;
    if Truthy(name) {
      volumeId := ProcessVolumes(ctx.value.volumes, None, name);
    } else {
      volumeId := ProcessVolumes(ctx.value.volumes, vid, None);
    }
    if volumeId.Failure? {
      return Failure(volumeId.error);
    }
    if volumeId.value.None? {
      return Success(None);
    }
    var job := ListAndHashVolume(client, volumeId.value.value, ctx.value.billingId);
    if job.Failure? {
      return Failure(job.error);
    }
    r := Success(Some(job.value));
  }

  /** Without a name or an id the script stops before any call. */
  lemma NeedsSelector(s: Server, studyName: string, name: Option<string>, vid: Option<string>, billing: Option<string>)
    ensures !(Truthy(name) || Truthy(vid)) <==> HashRun(s, studyName, name, vid, billing) == Run(Failure(NoVolumeSelector), [])
  {
    if Truthy(name) || Truthy(vid) {
      PreludeQueries(s, studyName, billing);
    }
  }

  /** A name, when given, decides; the id is then ignored. */
  lemma NameOverridesId(s: Server, studyName: string, name: Option<string>, vid: Option<string>, billing: Option<string>)
    requires Truthy(name)
    ensures HashRun(s, studyName, name, vid, billing) == HashRun(s, studyName, name, None, billing)
  {
  }

  /** The script never creates a volume: it issues at most one mutation,
      a list-and-hash. */
  lemma OnlyHashes(s: Server, studyName: string, name: Option<string>, vid: Option<string>, billing: Option<string>)
    ensures |Mutations(HashRun(s, studyName, name, vid, billing).calls)| <= 1
    ensures forall m :: m in Mutations(HashRun(s, studyName, name, vid, billing).calls) ==> m.VolumeListAndHash?
  {
    var run := HashRun(s, studyName, name, vid, billing);
    if Truthy(name) || Truthy(vid) {
      var pre := PreludeRun(s, studyName, billing);
      PreludeQueries(s, studyName, billing);
      QueriesOnly(pre.calls);
      if pre.outcome.Success? {
        var ctx := pre.outcome.value;
        var chosen := ChosenVolume(ctx.volumes, name, vid);
        if chosen.Success? && chosen.value.Some? {
          var hash := ListAndHashRun(s, chosen.value.value, ctx.billingId);
          assert run.calls == pre.calls + hash.calls;
          MutationsAppend(pre.calls, hash.calls);
          MutationsSnoc([], hash.calls[0]);
        }
      }
    }
  }

  /** After a successful opening, the chosen volume decides the rest: no
      further call when none is chosen, a single hash of the chosen one
      otherwise. */
  lemma HashAfterOpening(s: Server, studyName: string, name: Option<string>, vid: Option<string>,
                         billing: Option<string>, ctx: Context)
    requires Truthy(name) || Truthy(vid)
    requires PreludeRun(s, studyName, billing).outcome == Success(ctx)
    ensures var run := HashRun(s, studyName, name, vid, billing);
      ChosenVolume(ctx.volumes, name, vid).Failure? ==>
        run == Run(Failure(ChosenVolume(ctx.volumes, name, vid).error), PreludeRun(s, studyName, billing).calls)
    ensures ChosenVolume(ctx.volumes, name, vid) == Success(None) ==>
      HashRun(s, studyName, name, vid, billing) == Run(Success(None), PreludeRun(s, studyName, billing).calls)
    ensures var chosen := ChosenVolume(ctx.volumes, name, vid);
      chosen.Success? && chosen.value.Some? ==>
        Mutations(HashRun(s, studyName, name, vid, billing).calls) == [VolumeListAndHash(chosen.value.value, ctx.billingId)]
    ensures NoMutation(PreludeRun(s, studyName, billing).calls)
  {
    var pre := PreludeRun(s, studyName, billing);
    PreludeQueries(s, studyName, billing);
    var chosen := ChosenVolume(ctx.volumes, name, vid);
    if chosen.Success? && chosen.value.Some? {
      var hash := ListAndHashRun(s, chosen.value.value, ctx.billingId);
      assert HashRun(s, studyName, name, vid, billing).calls == pre.calls + hash.calls;
      MutationsAfterQueries(pre.calls, hash.calls);
      MutationsOne(hash.calls[0]);
    }
  }

  /** By name: a job is started exactly when the study holds exactly one
      volume with that name, and it hashes that volume with the resolved
      billing group; otherwise the outcome is "no job" and nothing is issued
      after the opening. */
  lemma ByName(s: Server, studyName: string, name: Option<string>, vid: Option<string>, billing: Option<string>)
    requires Truthy(name)
    requires PreludeRun(s, studyName, billing).outcome.Success?
    ensures var ctx := PreludeRun(s, studyName, billing).outcome.value;
      Mutations(HashRun(s, studyName, name, vid, billing).calls) != [] <==> UniqueMatch(ctx.volumes, VolumeNamed(name))
    ensures var ctx := PreludeRun(s, studyName, billing).outcome.value;
      UniqueMatch(ctx.volumes, VolumeNamed(name)) ==>
        exists k :: 0 <= k < |ctx.volumes| && ctx.volumes[k].1 == name.value
          && Mutations(HashRun(s, studyName, name, vid, billing).calls) == [VolumeListAndHash(ctx.volumes[k].0, ctx.billingId)]
    ensures var ctx := PreludeRun(s, studyName, billing).outcome.value;
      !UniqueMatch(ctx.volumes, VolumeNamed(name)) ==>
        HashRun(s, studyName, name, vid, billing) == Run(Success(None), PreludeRun(s, studyName, billing).calls)
  {
    var pre := PreludeRun(s, studyName, billing);
    var ctx := pre.outcome.value;
    HashAfterOpening(s, studyName, name, vid, billing, ctx);
    MatchingSingle(ctx.volumes, VolumeNamed(name));
    var found := Matching(ctx.volumes, VolumeNamed(name));
    if UniqueMatch(ctx.volumes, VolumeNamed(name)) {
      assert found[0] in found;
      var k :| 0 <= k < |ctx.volumes| && ctx.volumes[k].0 == found[0] && VolumeNamed(name)(ctx.volumes[k]);
      assert ChosenVolume(ctx.volumes, name, vid) == Success(Some(found[0]));
    } else {
      assert ChosenVolume(ctx.volumes, name, vid) == Success(None);
      QueriesOnly(pre.calls);
    }
  }

  /** By id (no name): the id must be one of the study's volumes; if it is,
      that volume is hashed, otherwise the script fails before any mutation. */
  lemma ById(s: Server, studyName: string, vid: Option<string>, billing: Option<string>)
    requires Truthy(vid)
    requires PreludeRun(s, studyName, billing).outcome.Success?
    ensures var ctx := PreludeRun(s, studyName, billing).outcome.value;
      HasKey(ctx.volumes, vid.value) ==>
        Mutations(HashRun(s, studyName, None, vid, billing).calls) == [VolumeListAndHash(vid.value, ctx.billingId)]
    ensures var ctx := PreludeRun(s, studyName, billing).outcome.value;
      !HasKey(ctx.volumes, vid.value) ==>
        HashRun(s, studyName, None, vid, billing).outcome == Failure(UnknownVolumeId(vid.value))
        && NoMutation(HashRun(s, studyName, None, vid, billing).calls)
  {
    var ctx := PreludeRun(s, studyName, billing).outcome.value;
    HashAfterOpening(s, studyName, None, vid, billing, ctx);
  }
}
