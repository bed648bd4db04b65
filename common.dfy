/** Values shared by every part of the model: identifiers, the id-keyed
    tables the catalog queries produce, Python's optional strings and the
    classified errors the resolvers and workflows raise. */
module Common {

  /** Identifiers are opaque strings issued by the service. */
  type Id = string

  datatype Option<+T> = None | Some(value: T)

  /** A Python dictionary keyed by id, in insertion (iteration) order. */
  type Table<D> = seq<(Id, D)>

  /** The two kinds of external resource `pick_external_id` chooses among. */
  datatype ExternalType = Credential | BillingGroup

  /** The resource a failed name lookup was about. */
  datatype Resource = Study | Organization | External(kind: ExternalType)

  /** One entry of a mutation payload's `errors` list. */
  datatype MutationError = MutationError(message: string, field: Option<string>)

  /** Every exception the modelled code raises, one variant per raise site. */
  datatype Error =
    | NotFound(resource: Resource, selector: string)          // "... not found"
    | Ambiguous(resource: Resource, selector: string)         // "... found multiple times"
    | NoCandidates                                            // "No credentials in study."
    | NoneSelected(kind: ExternalType, candidates: seq<Id>)    // "Multiple ... found ... but none provided"
    | UnknownVolumeId(vid: Id)                                // "Volume id not present in study."
    | UnsupportedJobType(jobType: string)
    | NoMatchingJob(operation: string)
    | MalformedTimestamp(jobId: Id)                           // strptime failed (or got None)
    | VolumeExists(bucket: string, study: string)             // "Volume ... already loaded to ..."
    | MutationFailed(errors: seq<MutationError>)              // check_mutation_result
    | MissingNode(id: Id)                                     // a query's node was null
    | MissingField(key: string)                               // a reply lacked a key or object
    | NoVolumeSelector                                        // "Either volume name or volume id must provided"

  datatype Result<+T> = Success(value: T) | Failure(error: Error)

  /** Python truthiness of an optional string: neither None nor "". */
  predicate Truthy(o: Option<string>) {
    o.Some? && o.value != ""
  }

  ghost predicate NoDuplicates<T>(s: seq<T>) {
    forall i, j :: 0 <= i < j < |s| ==> s[i] != s[j]
  }

  ghost function ToSet<T>(s: seq<T>): set<T> {
    set x | x in s
  }

  /** The keys of a table, in order. */
  function Keys<D>(t: Table<D>): (ks: seq<Id>)
    ensures |ks| == |t|
    ensures forall k :: 0 <= k < |t| ==> ks[k] == t[k].0
  {
    seq(|t|, k requires 0 <= k < |t| => t[k].0)
  }

  /** Python's `key in d.keys()`. */
  predicate HasKey<D>(t: Table<D>, key: Id) {
    exists k :: 0 <= k < |t| && t[k].0 == key
  }

  /** A sequence without repetitions has as many distinct elements as entries. */
  lemma {:induction false} NoDuplicatesCard<T>(s: seq<T>)
    requires NoDuplicates(s)
    ensures |ToSet(s)| == |s|
  {
    if s != [] {
      var last := s[|s| - 1];
      var init := s[..|s| - 1];
      assert NoDuplicates(init);
      NoDuplicatesCard(init);
      assert last !in init;
      assert ToSet(s) == ToSet(init) + {last};
    }
  }

  /** Python's `list(set(s))`: the distinct elements of `s`, each once. Python
      leaves their order unspecified, and so does this contract. */
  method ListOfSet<T(==)>(s: seq<T>) returns (r: seq<T>)
    ensures ToSet(r) == ToSet(s)
    ensures NoDuplicates(r)
  {
    r := [];
    for i := 0 to |s|
      invariant ToSet(r) == ToSet(s[..i])
      invariant NoDuplicates(r)
    {
      assert s[..i + 1] == s[..i] + [s[i]];
      assert ToSet(s[..i + 1]) == ToSet(s[..i]) + {s[i]};
      if s[i] !in r {
        assert ToSet(r + [s[i]]) == ToSet(r) + {s[i]};
        r := r + [s[i]];
      }
    }
    assert s[..|s|] == s;
  }

  /** More than one element means two different elements. */
  lemma SetSeveral<T>(s: set<T>)
    ensures |s| > 1 <==> exists x, y :: x in s && y in s && x != y
  {
    if |s| > 1 {
      var x :| x in s;
      var rest := s - {x};
      assert |rest| == |s| - 1;
      var y :| y in rest;
      assert y in s && x != y;
    }
    if exists x, y :: x in s && y in s && x != y {
      var x, y :| x in s && y in s && x != y;
      var pair := {x, y};
      assert pair <= s;
      assert |pair| == 2;
      SubsetCard(pair, s);
    }
  }

  lemma SubsetCard<T>(a: set<T>, b: set<T>)
    requires a <= b
    ensures |a| <= |b|
  {
    assert b == a + (b - a);
  }

  /** Exactly one element means a single element equal to all others. */
  lemma SetSingle<T>(s: set<T>)
    ensures |s| == 1 <==> exists x :: x in s && forall y :: y in s ==> y == x
  {
    if |s| == 1 {
      var x :| x in s;
      assert |s - {x}| == 0;
      assert s == {x};
    }
    if exists x :: x in s && forall y :: y in s ==> y == x {
      var x :| x in s && forall y :: y in s ==> y == x;
      assert s == {x};
    }
  }
}
