/** The GraphQL client as an oracle. The service's answers are fixed data
    (a `Server` value); every query and mutation the core issues is appended
    to a ghost trace, so that properties such as "no create mutation was
    issued" can be stated about a run. Transport failures are not modelled:
    the oracle always answers. */
module GraphClient {
  import opened Common

  /** Descriptor of a study, as `get_all_studies` flattens it. */
  datatype StudyInfo = StudyInfo(name: string, globalId: string)

  /** Descriptor of a credential ({name, key}) or a billing group ({name}). */
  datatype ExternalInfo = ExternalInfo(name: string, key: Option<string>)

  /** The read queries whose answers the workflows consume. */
  datatype Query =
    | AllStudies                         // get_all_studies
    | OrgOfStudy(studyId: Id)            // get_org_id_from_study
    | StudyCredentials(studyId: Id)      // get_study_credentials
    | BillingGroups(orgId: Id)           // get_billing_groups
    | StudyVolumes(studyId: Id)          // get_study_volumes

  /** The two mutations the workflows issue. `input` is the
      `VolumeCreateInput` dictionary, key by key. */
  datatype Mutation =
    | VolumeCreate(input: map<string, string>)
    | VolumeListAndHash(volumeId: Id, billingGroupId: Id)

  datatype Call = Query(query: Query) | Mutate(mutation: Mutation)

  /** One top-level field of a mutation reply: its `errors` list (null when
      the mutation succeeded) and the id of the object it returns (`volume.id`
      or `job.id`; None when that object is null). */
  datatype Payload = Payload(errors: Option<seq<MutationError>>, id: Option<Id>)

  /** A mutation reply: its top-level fields in order, e.g. `volumeCreate`. */
  type MutationReply = seq<(string, Payload)>

  /** Everything the service answers. A query about an id the service does
      not know returns a null node, which the source then indexes into; that
      failure is `MissingNode`. */
  datatype Server = Server(
    studies: Table<StudyInfo>,
    organizationOf: map<Id, Id>,
    credentials: map<Id, Table<ExternalInfo>>,
    billingGroups: map<Id, Table<ExternalInfo>>,
    volumes: map<Id, Table<string>>,
    respond: Mutation -> MutationReply)
  {
    function OrgOf(studyId: Id): Result<Id> {
      if studyId in organizationOf then Success(organizationOf[studyId]) else Failure(MissingNode(studyId))
    }

    function CredentialsOf(studyId: Id): Result<Table<ExternalInfo>> {
      if studyId in credentials then Success(credentials[studyId]) else Failure(MissingNode(studyId))
    }

    function BillingGroupsOf(orgId: Id): Result<Table<ExternalInfo>> {
      if orgId in billingGroups then Success(billingGroups[orgId]) else Failure(MissingNode(orgId))
    }

    function VolumesOf(studyId: Id): Result<Table<string>> {
      if studyId in volumes then Success(volumes[studyId]) else Failure(MissingNode(studyId))
    }
  }

  /** What a workflow step leaves behind: its outcome and the calls that
      step issued, in order. */
  datatype Run<T> = Run(outcome: Result<T>, calls: seq<Call>)

  ghost predicate NoMutation(calls: seq<Call>) {
    forall k :: 0 <= k < |calls| ==> calls[k].Query?
  }

  /** The mutations among `calls`, in order. */
  ghost function Mutations(calls: seq<Call>): seq<Mutation> {
    if calls == [] then []
    else
      var last := calls[|calls| - 1];
      Mutations(calls[..|calls| - 1]) + (if last.Mutate? then [last.mutation] else [])
  }

  /** Appending one call appends its mutation, if it is one. */
  lemma MutationsSnoc(calls: seq<Call>, c: Call)
    ensures Mutations(calls + [c]) == Mutations(calls) + (if c.Mutate? then [c.mutation] else [])
  {
    assert (calls + [c])[..|calls|] == calls;
  }

  /** The mutations of consecutive runs are those of each, in order. */
  lemma {:induction false} MutationsAppend(a: seq<Call>, b: seq<Call>)
    ensures Mutations(a + b) == Mutations(a) + Mutations(b)
  {
    if b != [] {
      var init := b[..|b| - 1];
      var last := b[|b| - 1];
      assert b == init + [last];
      assert a + b == (a + init) + [last];
      MutationsAppend(a, init);
      MutationsSnoc(a + init, last);
      MutationsSnoc(init, last);
    } else {
      assert a + b == a;
    }
  }

  /** Queries ahead of a run add no mutation to it. */
  lemma MutationsAfterQueries(pre: seq<Call>, rest: seq<Call>)
    requires NoMutation(pre)
    ensures Mutations(pre + rest) == Mutations(rest)
  {
    QueriesOnly(pre);
    MutationsAppend(pre, rest);
  }

  lemma NoMutationConcat(a: seq<Call>, b: seq<Call>)
    requires NoMutation(a) && NoMutation(b)
    ensures NoMutation(a + b)
  {
    forall k | 0 <= k < |a + b| ensures (a + b)[k].Query? {
      if k < |a| { assert (a + b)[k] == a[k]; } else { assert (a + b)[k] == b[k - |a|]; }
    }
  }

  lemma MutationsOne(c: Call)
    ensures Mutations([c]) == (if c.Mutate? then [c.mutation] else [])
  {
    MutationsSnoc([], c);
    assert [] + [c] == [c];
  }

  /** A run of queries issues no mutation. */
  lemma {:induction false} QueriesOnly(calls: seq<Call>)
    requires NoMutation(calls)
    ensures Mutations(calls) == []
  {
    if calls != [] {
      QueriesOnly(calls[..|calls| - 1]);
    }
  }

  class Client {
    const server: Server
    ghost var trace: seq<Call>

    constructor (server: Server)
      ensures this.server == server && trace == []
    {
      this.server := server;
      trace := [];
    }

    method GetAllStudies() returns (studies: Table<StudyInfo>)
      modifies this
      ensures studies == server.studies
      ensures trace == old(trace) + [Query(AllStudies)]
    {
      studies := server.studies;
      trace := trace + [Query(AllStudies)];
    }

    method GetOrgIdFromStudy(studyId: Id) returns (r: Result<Id>)
      modifies this
      ensures r == server.OrgOf(studyId)
      ensures trace == old(trace) + [Query(OrgOfStudy(studyId))]
    {
      r := server.OrgOf(studyId);
      trace := trace + [Query(OrgOfStudy(studyId))];
    }

    method GetStudyCredentials(studyId: Id) returns (r: Result<Table<ExternalInfo>>)
      modifies this
      ensures r == server.CredentialsOf(studyId)
      ensures trace == old(trace) + [Query(StudyCredentials(studyId))]
    {
      r := server.CredentialsOf(studyId);
      trace := trace + [Query(StudyCredentials(studyId))];
    }

    method GetBillingGroups(orgId: Id) returns (r: Result<Table<ExternalInfo>>)
      modifies this
      ensures r == server.BillingGroupsOf(orgId)
      ensures trace == old(trace) + [Query(BillingGroups(orgId))]
    {
      r := server.BillingGroupsOf(orgId);
      trace := trace + [Query(BillingGroups(orgId))];
    }

    method GetStudyVolumes(studyId: Id) returns (r: Result<Table<string>>)
      modifies this
      ensures r == server.VolumesOf(studyId)
      ensures trace == old(trace) + [Query(StudyVolumes(studyId))]
    {
      r := server.VolumesOf(studyId);
      trace := trace + [Query(StudyVolumes(studyId))];
    }

    /** `client.execute(mutation, variable_values=params)`. */
    method Execute(m: Mutation) returns (reply: MutationReply)
      modifies this
      ensures reply == server.respond(m)
      ensures trace == old(trace) + [Mutate(m)]
    {
      reply := server.respond(m);
      trace := trace + [Mutate(m)];
    }
  }
}
