# dewrangle-python: resolvers, job selection and hashing workflows in Dafny

This project models the core of `dewrangle-python`, a client for the
Dewrangle service. Users name studies, organizations, credentials, billing
groups and volumes by name. The client turns those names into ids, adds a
bucket to a study as a volume, starts list-and-hash jobs, and picks jobs and
their results.

The model has six modules:

- `Common` (common.dfy): ids, tables keyed by id in dictionary order,
  Python's optional strings and their truthiness, the classified errors, and
  `list(set(...))`.
- `GraphClient` (client.dfy): the GraphQL service as an oracle. A `Server`
  value holds every query answer and a function from mutation to reply. The
  `Client` class appends each query and mutation it issues to a ghost
  `trace`, so a contract can say which calls a workflow makes and in which
  order.
- `QueryFunctions` (query_functions.dfy), modelling `dewrangle/query_functions.py`:
  - the mutation-result gate (`check_mutation_result`);
  - `add_volume` and `list_and_hash_volume`;
  - `pick_external_id` and the credential and billing-group lookups;
  - the study, organization and volume resolvers;
  - timestamp parsing, job-type aliases and the most-recent-job choice;
  - the status and result-job decision of `download_job_result`;
  - the volume-to-study classification of `get_study_from_volume`;
  - the `load_and_hash_volume` workflow.
- `AddAndHashVolume`, `HashVolume` and `GetStudyByVolume`: the `main` of
  each of the three scripts.

Each workflow has a ghost specification function. It returns a `Run`: the
outcome together with the exact list of calls the workflow issues. Each
workflow method guarantees that its new trace is the old trace followed by
those calls, and that its result is that outcome. Lemmas about the
specification functions then state what the source promises. Examples:

- nothing is created when a name fails to resolve;
- at most one volume is created, with the right input;
- the hash job runs on the volume just created, or on the one already there;
- the hash script never creates a volume.

The source's comments promise more than its code does; the model follows
the code:

- `get_billing_id` has no default-billing-group fallback. Its docstring
  (dewrangle/query_functions.py:601) and the `--billing` help of two scripts
  (scripts/add_and_hash_volume.py:30, scripts/hash_volume.py:28) promise
  one. Billing groups are queried with their name only, and without a name
  the lookup succeeds only when the organization has exactly one group.

The code also behaves as follows:

- A list-and-hash job's result comes from its last `VOLUME_HASH` child.
- A completed job whose operation is not a list or hash operation yields no
  result job. It is not an error.
- The study and organization "found multiple times" errors do not carry the
  list of candidates.

## Model

| member | source | states |
|---|---|---|
| `Common.ListOfSet` | dewrangle/query_functions.py:889-890 | `list(set(s))`: the same elements as `s`, each exactly once |
| `Common.NoDuplicatesCard` | dewrangle/query_functions.py:890-891 | after de-duplication, the length is the number of distinct ids |
| `GraphClient.Client.GetAllStudies` | dewrangle/query_functions.py:367-412 | answers the studies table and records one `AllStudies` query |
| `GraphClient.Client.GetOrgIdFromStudy` | dewrangle/query_functions.py:338-364 | answers the study's organization; an unknown study is a missing node |
| `GraphClient.Client.GetStudyCredentials` | dewrangle/query_functions.py:244-287 | answers the study's credentials table; records the query |
| `GraphClient.Client.GetBillingGroups` | dewrangle/query_functions.py:561-597 | answers the organization's billing groups; records the query |
| `GraphClient.Client.GetStudyVolumes` | dewrangle/query_functions.py:444-479 | answers the study's volumes (id to name); records the query |
| `GraphClient.Client.Execute` | dewrangle/query_functions.py:72 | answers the server's reply to the mutation and records exactly that mutation |
| `QueryFunctions.FirstErrors` | dewrangle/query_functions.py:20-32 | none exactly when no field of the reply carries errors; otherwise the errors of the first such field |
| `QueryFunctions.CheckMutationResult` | dewrangle/query_functions.py:20-32 | the loop raises with the first field's errors, and passes exactly when no field has errors |
| `QueryFunctions.MutationGate` | dewrangle/query_functions.py:74-78 | a reply with errors always fails with those errors; success iff no errors and the named field carries an id, which is returned |
| `QueryFunctions.VolumeCreateInput` | dewrangle/query_functions.py:61-72 | the input has name, region, studyId and credentialId, plus pathPrefix exactly when a prefix is given |
| `QueryFunctions.AddVolume` | dewrangle/query_functions.py:35-78 | issues one VolumeCreate with that input; the result is the gated `volumeCreate` id |
| `QueryFunctions.ListAndHashVolume` | dewrangle/query_functions.py:158-190 | issues one VolumeListAndHash for the volume and billing group; the result is the gated job id |
| `QueryFunctions.LastMatchFacts` | dewrangle/query_functions.py:210-213 | none iff no entry matches; otherwise the id of a matching entry with no match after it |
| `QueryFunctions.MatchingSingle` | dewrangle/query_functions.py:424-431 | exactly one collected id iff exactly one entry matches |
| `QueryFunctions.ExactlyOneOutcomes` | dewrangle/query_functions.py:430-439 | success iff the match is unique; not-found iff nothing matches; ambiguous iff several match |
| `QueryFunctions.PickExternalId` | dewrangle/query_functions.py:193-228 | sole candidate when no name; with a truthy name, success iff a candidate has it, and then the last such; otherwise an error |
| `QueryFunctions.GetCredId` | dewrangle/query_functions.py:231-241 | queries the study's credentials once, then picks among them |
| `QueryFunctions.GetBillingId` | dewrangle/query_functions.py:600-608 | queries the organization's billing groups once, then picks among them |
| `QueryFunctions.GetStudyId` | dewrangle/query_functions.py:415-441 | success iff exactly one study has that id, global id or name, which is returned; not-found and ambiguous otherwise |
| `QueryFunctions.GetOrgId` | dewrangle/query_functions.py:290-335 | success iff exactly one organization has that name; not-found iff none has |
| `QueryFunctions.ProcessVolumes` | dewrangle/query_functions.py:611-650 | a truthy id is accepted iff the study has it; otherwise the unique volume so named, or the falsy id unchanged |
| `QueryFunctions.ParseVolumeJobs` | dewrangle/query_functions.py:768-782 | succeeds iff every job's two timestamps parse; fails at the first job that does not; any null `completedAt` fails |
| `QueryFunctions.JobOperationAliases` | dewrangle/query_functions.py:792-797 | case-insensitive aliases: hash and volume_hash give VOLUME_HASH, list and volume_list give VOLUME_LIST, all else refused |
| `QueryFunctions.SelectMostRecent` | dewrangle/query_functions.py:799-809 | success iff a job has the operation; the chosen job has the greatest `createdAt` and comes first among equals |
| `QueryFunctions.GetMostRecentJob` | dewrangle/query_functions.py:785-811 | parse, then normalise the job type, then select; success iff every timestamp parses, the type is known and a job has it; a malformed timestamp, an unknown type and a missing job each give their own error; the chosen job is the latest, first among equals |
| `QueryFunctions.RunningJobBlocksSelection` | dewrangle/query_functions.py:777-779 | on a volume with a running job the parsing as written fails, while a hash job is there to select |
| `QueryFunctions.ParseVolumeJobsTolerant` | dewrangle/query_functions.py:768-782 | the corrected parsing: a running job is kept without a completion time |
| `QueryFunctions.GetMostRecentJobTolerant` | dewrangle/query_functions.py:785-811 | the corrected selection, which running jobs do not block: the same outcomes and the same choice of job, with tolerant parsing |
| `QueryFunctions.Status` | dewrangle/query_functions.py:958-966 | Complete iff `completedAt` is neither null nor "" |
| `QueryFunctions.DownloadJobResult` | dewrangle/query_functions.py:946-983 | result job iff complete and a list or hash operation; for list-and-hash, the last hash child, else the job itself |
| `QueryFunctions.NameHitsCount` | dewrangle/query_functions.py:881-883 | a study is collected once per volume it holds under the name |
| `QueryFunctions.StudyHitsMembers` | dewrangle/query_functions.py:879-883 | a study id is collected iff that study has a volume of that name |
| `QueryFunctions.CatalogHitsMembers` | dewrangle/query_functions.py:877-883 | an id is collected iff some organization lists that study with a volume of that name |
| `QueryFunctions.CollectStudyIds` | dewrangle/query_functions.py:877-883 | the three nested loops collect exactly the catalog hits, in catalog order |
| `QueryFunctions.GetStudyFromVolume` | dewrangle/query_functions.py:830-896 | same studies as the hits, without repetition; each of the three messages (or none) iff the hit counts say so |
| `QueryFunctions.VolumeNotFoundMeaning` | dewrangle/query_functions.py:887-888 | "Volume not found" iff no study holds the volume |
| `QueryFunctions.MultipleStudiesMeaning` | dewrangle/query_functions.py:894-895 | "loaded to multiple studies" iff two different studies hold it |
| `QueryFunctions.OneStudyMeaning` | dewrangle/query_functions.py:891-892 | a single distinct hit iff exactly one study holds the volume |
| `QueryFunctions.PreludeQueries` | dewrangle/query_functions.py:913-921 | the opening only queries, in the order studies, organization, billing groups, volumes, and resolves exactly those values |
| `QueryFunctions.ResolveContext` | dewrangle/query_functions.py:913-921 | the client issues the opening calls and returns its outcome |
| `QueryFunctions.CreateAndHash` | dewrangle/query_functions.py:923-933 | credential query, volume creation, then hashing of the new volume |
| `QueryFunctions.LoadOrReuse` | dewrangle/query_functions.py:920-933 | reuse the uniquely named volume, else create it, then hash |
| `QueryFunctions.LoadAndHashVolume` | dewrangle/query_functions.py:899-943 | issues exactly the workflow's calls; a job id iff the workflow succeeds; any exception gives no job id |
| `QueryFunctions.LoadAndHashOpeningFails` | dewrangle/query_functions.py:913-921 | a failure in the opening is the outcome, and no mutation is issued |
| `QueryFunctions.LoadAndHashReuses` | dewrangle/query_functions.py:920-933 | a uniquely named existing volume is hashed, nothing is created, no credential is queried |
| `QueryFunctions.LoadAndHashCreates` | dewrangle/query_functions.py:923-933 | otherwise the credential is queried next; one create with the right input, then hashing of the created id |
| `HashVolume.HashStudyVolume` | scripts/hash_volume.py:46-80 | issues exactly the script's calls and returns its outcome |
| `HashVolume.NeedsSelector` | scripts/hash_volume.py:50-52 | without a truthy name or id, the script fails before any call, and only then |
| `HashVolume.NameOverridesId` | scripts/hash_volume.py:71-74 | when a name is given, the id argument makes no difference |
| `HashVolume.OnlyHashes` | scripts/hash_volume.py:71-78 | at most one mutation, a list-and-hash; never a volume creation |
| `HashVolume.ByName` | scripts/hash_volume.py:71-78 | hashes iff exactly one volume has the name, and then that volume with the resolved billing group |
| `HashVolume.ById` | scripts/hash_volume.py:73-78 | a known id is hashed; an unknown id fails with no mutation |
| `AddAndHashVolume.Resolve` | scripts/add_and_hash_volume.py:79-82 | studies, credential, organization and billing group, each failure aborting the rest |
| `AddAndHashVolume.CheckConflict` | scripts/add_and_hash_volume.py:85-90 | unless skipped, a bucket already among the volume names is refused |
| `AddAndHashVolume.AddAndHash` | scripts/add_and_hash_volume.py:64-98 | issues exactly the script's calls and returns its outcome |
| `AddAndHashVolume.ResolutionOrder` | scripts/add_and_hash_volume.py:79-82 | the first four calls are the four resolution queries, in the script's order |
| `AddAndHashVolume.SkipOmitsCheck` | scripts/add_and_hash_volume.py:85-86 | with `--skip` the volumes are never queried |
| `AddAndHashVolume.ConflictRefused` | scripts/add_and_hash_volume.py:85-90 | a bucket already loaded gives the "already loaded" error and no mutation |
| `AddAndHashVolume.NoMutationUntilChecked` | scripts/add_and_hash_volume.py:79-93 | no mutation unless every name resolved and the conflict check passed |
| `AddAndHashVolume.CreatesThenHashes` | scripts/add_and_hash_volume.py:93-98 | exactly one create with the right input, then hashing of the created volume with the resolved billing group |
| `GetStudyByVolume.SplitJoin` | scripts/get_study_by_volume.py:47 | joining the pieces of a split gives the text back; no piece holds a comma |
| `GetStudyByVolume.JoinSplit` | scripts/get_study_by_volume.py:47 | comma-free pieces, joined and split, come back unchanged |
| `GetStudyByVolume.LoadedWarnings` | scripts/get_study_by_volume.py:52 | both "loaded" warnings contain "Volume loaded"; "Volume not found" does not |
| `GetStudyByVolume.StudiesByVolume` | scripts/get_study_by_volume.py:41-55 | the split names are de-duplicated and each looked up once; each lands in not-found, multiple or good exactly per its hit count, with the corresponding study ids |

## Left out

- Transport, authentication and the clients: `get_api_credential`, `create_gql_client`, `create_rest_creds` and the GraphQL document text. The service is an oracle that always answers. Transport errors are not modelled.
- The job-info, volume-jobs and catalog queries: their answers are parameters of `DownloadJobResult`, `GetMostRecentJob` and `GetStudyFromVolume`. Calls to an unknown job or volume id are therefore not modelled for those three.
- `request_to_df`, the result URL and the CSV download in `download_job_result`: the model stops at the decision of which job's result to fetch.
- `datetime.strptime`: the timestamp format is an abstract parser from text to ordered instants.
- `create_study`, `list_volume`, `remove_volume_from_study`, `make_cred` and `get_job_info`'s other fields (errors, cost, parent job): they are outside the modelled core.
- The query side of `get_org_id`: `GetOrgId` takes the organization edges as a table.
- Argument parsing, `print` output, `sys.stderr` tracebacks and the text of error messages. Errors are classified values instead. The exceptions are the three messages of `get_study_from_volume`, which the by-volume script matches on.
- `pick_external_id`'s "other" resource type: every caller passes "credential" or "billing_group".
- Dictionary overwriting: a Python dict keeps one entry per id. The model's tables keep every edge the service returns, so it assumes the service's ids are distinct.
- `str.upper` on non-ASCII letters: `Upper` maps ASCII letters only.
- The repository's older top-level copies of the library and scripts, and the other scripts (listing, deleting, downloading, `hash_volume_list.py`): they are not part of this model.
- Common.ListOfSet: does not fix the order of the result, because Python leaves the iteration order of a set unspecified. For the same reason `GetStudyByVolume.StudiesByVolume` does not fix the order of its not-found list.

## Findings

| source | as written | input that shows it | evidently intended | confidence | as-written member | corrected member |
|---|---|---|---|---|---|---|
| dewrangle/query_functions.py:777-779 | `get_volume_jobs` runs `strptime` on every job's `completedAt`, so a job still running (null `completedAt`) raises, and `get_most_recent_job` and the job listing fail for the whole volume | a volume with a finished VOLUME_HASH job and a VOLUME_LIST job whose `completedAt` is null; ask for the most recent "hash" job | parse `completedAt` only for completed jobs, so the finished hash job is selected | medium; not executed | `QueryFunctions.GetMostRecentJob` with `QueryFunctions.RunningJobBlocksSelection` | `QueryFunctions.GetMostRecentJobTolerant` |
