/** The get-study-by-volume script: split a comma-separated list of volume
    names, de-duplicate it, look each name up across the viewer's catalog
    and sort the names into "not loaded", "loaded more than once" and
    "loaded once". Argument parsing and the printed report are outside the
    model; the catalog query's answer is a parameter. */
module GetStudyByVolume {
  import opened Common
  import opened QueryFunctions

  /** Python's `s.split(sep)` with an explicit one-character separator:
      every piece between separators, empty pieces included, so "" gives
      [""] and "a,,b" gives ["a", "", "b"]. */
  function Split(s: string, sep: char): (parts: seq<string>)
    ensures |parts| >= 1
  {
    if s == [] then [[]]
    else
      var rest := Split(s[1..], sep);
      if s[0] == sep then [[]] + rest else [[s[0]] + rest[0]] + rest[1..]
  }

  /** Python's `sep.join(parts)`. */
  function Join(parts: seq<string>, sep: char): string
    requires |parts| >= 1
  {
    if |parts| == 1 then parts[0] else parts[0] + [sep] + Join(parts[1..], sep)
  }

  /** Splitting loses nothing: joining the pieces gives the text back, and
      no piece contains the separator. */
  lemma SplitJoin(s: string, sep: char)
    ensures Join(Split(s, sep), sep) == s
    ensures forall k :: 0 <= k < |Split(s, sep)| ==> sep !in Split(s, sep)[k]
  {
    JoinOfSplit(s, sep);
    SplitPiecesFree(s, sep);
  }

  lemma {:induction false} JoinOfSplit(s: string, sep: char)
    ensures Join(Split(s, sep), sep) == s
  {
    if s != [] {
      var rest := Split(s[1..], sep);
      JoinOfSplit(s[1..], sep);
      var parts := Split(s, sep);
      if s[0] == sep {
        assert parts[1..] == rest;
      } else if |rest| == 1 {
        assert parts == [[s[0]] + rest[0]];
      } else {
        assert parts[1..] == rest[1..];
        assert Join(parts, sep) == [s[0]] + rest[0] + [sep] + Join(rest[1..], sep);
      }
      assert s == [s[0]] + s[1..];
    }
  }

  lemma {:induction false} SplitPiecesFree(s: string, sep: char)
    ensures forall k :: 0 <= k < |Split(s, sep)| ==> sep !in Split(s, sep)[k]
  {
    if s != [] {
      var rest := Split(s[1..], sep);
      SplitPiecesFree(s[1..], sep);
      var parts := Split(s, sep);
      if s[0] == sep {
        assert forall k :: 1 <= k < |parts| ==> parts[k] == rest[k - 1];
      } else {
        assert parts[0] == [s[0]] + rest[0];
        assert forall k :: 1 <= k < |parts| ==> parts[k] == rest[k];
      }
    }
  }

  /** And conversely, pieces free of the separator are split back apart. */
  lemma {:induction false} JoinSplit(parts: seq<string>, sep: char)
    requires |parts| >= 1
    requires forall k :: 0 <= k < |parts| ==> sep !in parts[k]
    ensures Split(Join(parts, sep), sep) == parts
  {
    if |parts| == 1 {
      SplitPiece(parts[0], sep);
    } else {
      JoinSplit(parts[1..], sep);
      SplitPrefix(parts[0], [sep] + Join(parts[1..], sep), sep);
      assert parts[0] + [sep] + Join(parts[1..], sep) == parts[0] + ([sep] + Join(parts[1..], sep));
      assert [sep] + Join(parts[1..], sep) != [];
      assert ([sep] + Join(parts[1..], sep))[1..] == Join(parts[1..], sep);
      assert parts == [parts[0]] + parts[1..];
    }
  }

  /** Text without the separator is a single piece. */
  lemma {:induction false} SplitPiece(p: string, sep: char)
    requires sep !in p
    ensures Split(p, sep) == [p]
  {
    if p != [] {
      SplitPiece(p[1..], sep);
      assert p == [p[0]] + p[1..];
    }
  }

  /** A separator-free prefix joins the first piece of what follows it. */
  lemma {:induction false} SplitPrefix(p: string, t: string, sep: char)
    requires sep !in p
    requires t != [] && t[0] == sep
    ensures Split(p + t, sep) == [p] + Split(t[1..], sep)
  {
    if p == [] {
      assert p + t == t;
    } else {
      SplitPrefix(p[1..], t, sep);
      assert (p + t)[1..] == p[1..] + t;
      assert p == [p[0]] + p[1..];
    }
  }

  /** `needle` occurs in `text` starting at position `i`. */
  predicate OccursAt(needle: string, text: string, i: nat) {
    i + |needle| <= |text| && text[i..i + |needle|] == needle
  }

  /** Python's `needle in text` on strings. */
  predicate IsSubstring(needle: string, text: string) {
    exists i: nat :: i <= |text| && OccursAt(needle, text, i)
  }

  const LOADED := "Volume loaded"

  /** Both "loaded" warnings mention "Volume loaded"; "not found" does not. */
  lemma LoadedWarnings()
    ensures IsSubstring(LOADED, LOADED_TWICE_IN_ONE_STUDY)
    ensures IsSubstring(LOADED, LOADED_TO_MULTIPLE_STUDIES)
    ensures !IsSubstring(LOADED, VOLUME_NOT_FOUND)
  {
    assert OccursAt(LOADED, LOADED_TWICE_IN_ONE_STUDY, 0);
    assert OccursAt(LOADED, LOADED_TO_MULTIPLE_STUDIES, 0);
    forall i: nat | i <= |VOLUME_NOT_FOUND|
      ensures !OccursAt(LOADED, VOLUME_NOT_FOUND, i)
    {
      if i + |LOADED| <= |VOLUME_NOT_FOUND| {
        if i == 0 {
          assert VOLUME_NOT_FOUND[i..i + |LOADED|][7] != LOADED[7];
        } else {
          assert VOLUME_NOT_FOUND[i..i + |LOADED|][0] != LOADED[0];
        }
      }
    }
  }

  /** The script's `main`: the requested names are de-duplicated
      (`lookedUp` is the list the loop walks, each distinct name once), and
      each lands in exactly one category, decided by how often the catalog
      holds it. Names loaded more than once map to their distinct studies,
      names loaded once to their study. The order of `notFounds` is that of Python's set iteration,
      which is unspecified. */
  method StudiesByVolume(orgs: Catalog, volumeList: string)
    returns (notFounds: seq<string>, multiples: map<string, seq<Id>>, good: map<string, seq<Id>>,
             ghost lookedUp: seq<string>)
    ensures NoDuplicates(lookedUp) && ToSet(lookedUp) == ToSet(Split(volumeList, ','))
    ensures NoDuplicates(notFounds)
    ensures forall v :: v in notFounds <==> v in Split(volumeList, ',') && CatalogHits(orgs, v) == []
    ensures forall v :: v in multiples <==> v in Split(volumeList, ',') && |CatalogHits(orgs, v)| > 1
    ensures forall v :: v in good <==> v in Split(volumeList, ',') && |CatalogHits(orgs, v)| == 1
    ensures forall v :: v in multiples ==>
      ToSet(multiples[v]) == ToSet(CatalogHits(orgs, v)) && NoDuplicates(multiples[v])
    ensures forall v :: v in good ==> good[v] == CatalogHits(orgs, v)
  {
    var names := Split(volumeList, ',');
    var volumes := ListOfSet(names);
    lookedUp := volumes;
    LoadedWarnings();
    notFounds := [];
    multiples := map[];
    good := map[];
    for i := 0 to |volumes|
      invariant NoDuplicates(notFounds)
      invariant forall v :: v in notFounds <==> v in volumes[..i] && CatalogHits(orgs, v) == []
      invariant forall v :: v in multiples <==> v in volumes[..i] && |CatalogHits(orgs, v)| > 1
      invariant forall v :: v in good <==> v in volumes[..i] && |CatalogHits(orgs, v)| == 1
      invariant forall v :: v in multiples ==>
        ToSet(multiples[v]) == ToSet(CatalogHits(orgs, v)) && NoDuplicates(multiples[v])
      invariant forall v :: v in good ==> good[v] == CatalogHits(orgs, v)
    {
      var vol := volumes[i];
      assert volumes[..i + 1] == volumes[..i] + [vol];
      assert vol !in volumes[..i];
      var studyIds, message := GetStudyFromVolume(orgs, vol);
      if message == Some(VOLUME_NOT_FOUND) {
        notFounds := notFounds + [vol];
      } else if message.Some? && IsSubstring(LOADED, message.value) {
        multiples := multiples[vol := studyIds];
      } else {
        good := good[vol := studyIds];
      }
    }
    assert volumes[..|volumes|] == volumes;
    forall v
      ensures v in volumes <==> v in names
    {
      assert v in volumes <==> v in ToSet(volumes);
      assert v in names <==> v in ToSet(names);
    }
  }
}
