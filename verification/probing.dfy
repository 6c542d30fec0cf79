/** The probing run of src/main.rs:53-155, one operation at a time: the check of the
    latest-version metadata before probing starts, the per-version probe task (claim a
    number, ask the metadata endpoint for that version, stop on an error payload,
    otherwise probe the first location and record its `last-modified` date), and the
    loop that starts probes while the stop flag is clear. The two HTTP endpoints are
    parameters: total functions from a URL to the response the server gives. Probes run
    one after another here; the tokio tasks, locks and sleeps are not modelled. */
module Probing {
  import opened Wrappers
  import opened VersionStore
  import opened TextOutput
  import opened AssetUrl

  /** The decoded metadata document, reduced to what the program reads of it.
      `errors` is the text of the `errors` field when the document has one.
      `locations` is `None` when the `locations` field is missing or is not an array;
      each entry is the string in its `location` field, or `None` when it has none. */
  datatype Metadata = Metadata(errors: Option<string>, locations: Option<seq<Option<string>>>)

  /** What a metadata GET yields: a decoded document, or a failed request or body. */
  datatype MetadataResponse = Unreachable | Received(metadata: Metadata)

  /** What the HEAD request to a content location yields: the raw `last-modified`
      header value when the response has one. */
  datatype HeadResponse = HeadUnreachable | HeadReceived(lastModified: Option<string>)

  /** Why the run ends before probing starts (each a panic in `main`). */
  datatype Abort =
    | FetchFailed              // `get_asset` returned an error
    | ErrorPayload(payload: string)
    | LocationsMissing         // `locations` missing or not an array: an `unwrap` panic
    | AssetNotFound            // `locations` is an empty array

  /** Why one probe task ends without a record and without stopping the run (each a
      panic inside the spawned task, which ends only that task). */
  datatype Failure =
    | MetadataUnreachable
    | NoLocation               // no string `location` in a first `locations` entry
    | HeadFailed
    | NoLastModified
    | HeaderNotText            // `HeaderValue::to_str` refuses the value

  datatype Outcome = Recorded(record: Version) | Exhausted | Failed(failure: Failure)

  /** The values `HeaderValue::to_str` accepts: visible ASCII and tab. */
  predicate HeaderText(s: string) {
    forall i :: 0 <= i < |s| ==> (32 <= s[i] as int < 127 || s[i] == '\t')
  }

  function LatestUrl(assetId: nat): string {
    match GetAssetUrl(assetId, None, true)
    case Ok(url) => url
    case Err(_) => assert false; ""
  }

  function VersionUrl(assetId: nat, version: nat): string {
    match GetAssetUrl(assetId, Some(version), false)
    case Ok(url) => url
    case Err(_) => assert false; ""
  }

  /** The startup gate (src/main.rs:53-68): `None` when probing may begin. */
  function StartupCheck(latest: MetadataResponse): (r: Option<Abort>)
    ensures r == None <==>
      latest.Received? && latest.metadata.errors.None? &&
      latest.metadata.locations.Some? && |latest.metadata.locations.value| > 0
    ensures latest.Received? && latest.metadata.errors.Some? ==>
      r == Some(ErrorPayload(latest.metadata.errors.value))
    ensures r == Some(AssetNotFound) <==>
      latest.Received? && latest.metadata.errors.None? && latest.metadata.locations == Some([])
  {
    match latest
    case Unreachable => Some(FetchFailed)
    case Received(m) =>
      if m.errors.Some? then Some(ErrorPayload(m.errors.value))
      else
        match m.locations
        case None => Some(LocationsMissing)
        case Some(ls) => if |ls| == 0 then Some(AssetNotFound) else None
  }

  /** `asset.get("locations").unwrap()[0].get("location").unwrap().as_str().unwrap()`
      when none of those fail. */
  function FirstLocation(m: Metadata): (r: Option<string>)
    ensures r.Some? <==> m.locations.Some? && |m.locations.value| > 0 && m.locations.value[0].Some?
    ensures r.Some? ==> r.value == m.locations.value[0].value
  {
    match m.locations
    case None => None
    case Some(ls) => if |ls| == 0 then None else ls[0]
  }

  /** What the probe task for `version` comes to, given the two endpoints
      (src/main.rs:97-130). */
  function ProbeOutcome(assetId: nat, version: nat,
                        endpoint: string -> MetadataResponse,
                        head: string -> HeadResponse): (r: Outcome)
    ensures r.Exhausted? <==>
      endpoint(VersionUrl(assetId, version)).Received? &&
      endpoint(VersionUrl(assetId, version)).metadata.errors.Some?
    ensures r.Recorded? <==>
      endpoint(VersionUrl(assetId, version)).Received? &&
      var m := endpoint(VersionUrl(assetId, version)).metadata;
      m.errors.None? && FirstLocation(m).Some? &&
      var reply := head(FirstLocation(m).value);
      reply.HeadReceived? && reply.lastModified.Some? && HeaderText(reply.lastModified.value)
    ensures r.Recorded? ==>
      var m := endpoint(VersionUrl(assetId, version)).metadata;
      head(FirstLocation(m).value) == HeadReceived(Some(r.record.date)) &&
      r.record.version == version && HeaderText(r.record.date)
  {
    match endpoint(VersionUrl(assetId, version))
    case Unreachable => Failed(MetadataUnreachable)
    case Received(m) =>
      if m.errors.Some? then Exhausted
      else
        match FirstLocation(m)
        case None => Failed(NoLocation)
        case Some(location) =>
          match head(location)
          case HeadUnreachable => Failed(HeadFailed)
          case HeadReceived(None) => Failed(NoLastModified)
          case HeadReceived(Some(date)) =>
            if HeaderText(date) then Recorded(Version(version, date)) else Failed(HeaderNotText)
  }

  ghost predicate DatesAreHeaderText(s: seq<Version>) {
    forall v :: v in s ==> HeaderText(v.date)
  }

  /** Recording a new record keeps the collection sorted and its dates header text. */
  lemma RecordKeepsStore(s: seq<Version>, record: Version)
    requires DatesAreHeaderText(s) && HeaderText(record.date)
    ensures SortedByVersion(StableSort(s + [record]))
    ensures DatesAreHeaderText(StableSort(s + [record]))
  {
    PushThenSort(s, record);
    forall x | x in StableSort(s + [record]) ensures HeaderText(x.date) {
      assert x in multiset(StableSort(s + [record]));
    }
  }

  /** The shared run state: the asset, the stop flag, the next version number to claim
      and the collection of records. */
  class Prober {
    const assetId: nat
    const store: Versions
    var nextVersion: nat
    var stopped: bool

    ghost predicate Valid()
      reads this, store
    {
      nextVersion >= 1 && store.assetid == assetId &&
      SortedByVersion(store.versions) && DatesAreHeaderText(store.versions)
    }

    /** The state `main` creates once the startup gate has passed (src/main.rs:70-77). */
    constructor (assetId: nat)
      ensures Valid() && fresh(store)
      ensures this.assetId == assetId && nextVersion == 1 && !stopped && store.versions == []
    {
      this.assetId := assetId;
      store := new Versions(assetId);
      nextVersion := 1;
      stopped := false;
    }

    /** Read the counter (src/main.rs:91), under one acquisition of its lock. */
    method ReadCounter() returns (claimed: nat)
      ensures claimed == nextVersion
    {
      claimed := nextVersion;
    }

    /** Increment the counter (src/main.rs:93), under a second acquisition of its lock. */
    method IncrementCounter()
      modifies this
      ensures nextVersion == old(nextVersion) + 1 && stopped == old(stopped)
    {
      nextVersion := nextVersion + 1;
    }

    /** Two probe tasks whose first statements interleave: task B reads the counter after
        task A has read it and before A increments it, then both increment. Both claim the
        same version, and the counter moves on by two, so the next number is never probed. */
    method InterleavedClaims() returns (claimA: nat, claimB: nat)
      modifies this
      ensures claimA == old(nextVersion) && claimB == old(nextVersion)
      ensures nextVersion == old(nextVersion) + 2 && stopped == old(stopped)
    {
      claimA := ReadCounter();
      claimB := ReadCounter();
      IncrementCounter();
      IncrementCounter();
    }

    /** The same two tasks when nothing runs between a task's read and its increment, as
        in `Probe` with one probe at a time: they claim consecutive, distinct numbers. */
    method SequentialClaims() returns (claimA: nat, claimB: nat)
      modifies this
      ensures claimA == old(nextVersion) && claimB == claimA + 1
      ensures nextVersion == old(nextVersion) + 2 && stopped == old(stopped)
    {
      claimA := ReadCounter();
      IncrementCounter();
      claimB := ReadCounter();
      IncrementCounter();
    }

    /** One probe task, run to completion (src/main.rs:91-132). */
    method Probe(endpoint: string -> MetadataResponse, head: string -> HeadResponse)
      returns (outcome: Outcome)
      requires Valid()
      modifies this, store
      ensures Valid()
      ensures outcome == ProbeOutcome(assetId, old(nextVersion), endpoint, head)
      ensures nextVersion == old(nextVersion) + 1
      ensures stopped == (old(stopped) || outcome.Exhausted?)
      ensures store.versions ==
        if outcome.Recorded? then StableSort(old(store.versions) + [outcome.record])
        else old(store.versions)
    {
      var version := ReadCounter();
      IncrementCounter();
      ghost var expected := ProbeOutcome(assetId, version, endpoint, head);
      var response := endpoint(VersionUrl(assetId, version));
      if response.Unreachable? {
        return Failed(MetadataUnreachable);
      }
      if response.metadata.errors.Some? {
        stopped := true;
        return Exhausted;
      }
      var location := FirstLocation(response.metadata);
      if location.None? {
        return Failed(NoLocation);
      }
      var reply := head(location.value);
      if reply.HeadUnreachable? {
        return Failed(HeadFailed);
      }
      if reply.lastModified.None? {
        return Failed(NoLastModified);
      }
      var date := reply.lastModified.value;
      if !HeaderText(date) {
        return Failed(HeaderNotText);
      }
      var record := Version(version, date);
      assert expected == Recorded(record);
      ghost var before := store.versions;
      store.Push(record);
      store.SortVersions();
      RecordKeepsStore(before, record);
      outcome := Recorded(record);
    }
  }

  /** The records a sequential run collects from probe number `next` on, with at most
      `fuel` probes left: a probe that finds the versions exhausted ends it, a failed
      probe adds nothing. */
  function Discover(assetId: nat, endpoint: string -> MetadataResponse,
                    head: string -> HeadResponse, next: nat, fuel: nat): seq<Version>
    decreases fuel
  {
    if fuel == 0 then []
    else
      match ProbeOutcome(assetId, next, endpoint, head)
      case Exhausted => []
      case Recorded(v) => [v] + Discover(assetId, endpoint, head, next + 1, fuel - 1)
      case Failed(_) => Discover(assetId, endpoint, head, next + 1, fuel - 1)
  }

  /** One more probe of a run: its record, if any, joins those collected so far, and
      the run goes on unless the probe found the versions exhausted. */
  lemma DiscoverStep(assetId: nat, endpoint: string -> MetadataResponse,
                     head: string -> HeadResponse, next: nat, fuel: nat,
                     done: seq<Version>, outcome: Outcome, now: seq<Version>)
    requires fuel > 0
    requires outcome == ProbeOutcome(assetId, next, endpoint, head)
    requires now == if outcome.Recorded? then done + [outcome.record] else done
    ensures done + Discover(assetId, endpoint, head, next, fuel)
         == now + (if outcome.Exhausted? then [] else Discover(assetId, endpoint, head, next + 1, fuel - 1))
  {
  }

  /** Every record's version is below `bound`. */
  ghost predicate Below(s: seq<Version>, bound: nat) {
    forall v :: v in s ==> v.version < bound
  }

  /** A record with a version above every stored one goes to the end. */
  lemma RecordAppends(s: seq<Version>, record: Version)
    requires SortedByVersion(s) && Below(s, record.version)
    ensures StableSort(s + [record]) == s + [record]
    ensures Below(s + [record], record.version + 1)
  {
    SortOfSorted(s);
    assert (s + [record])[..|s|] == s;
    if s != [] {
      assert s[|s| - 1] in s;
    }
  }

  /** The outcome of a whole run with at most `maxTicks` probes. */
  function RunResult(assetId: nat, endpoint: string -> MetadataResponse,
                     head: string -> HeadResponse, maxTicks: nat): Result<seq<Version>, Abort>
  {
    match StartupCheck(endpoint(LatestUrl(assetId)))
    case Some(reason) => Err(reason)
    case None => Ok(Discover(assetId, endpoint, head, 1, maxTicks))
  }

  /** `main`, with probes one after another and at most `maxTicks` ticks of the loop:
      the startup gate, then a probe per tick while the stop flag is clear. */
  method Run(assetId: nat, endpoint: string -> MetadataResponse,
             head: string -> HeadResponse, maxTicks: nat)
    returns (r: Result<seq<Version>, Abort>)
    ensures r == RunResult(assetId, endpoint, head, maxTicks)
  {
    var check := StartupCheck(endpoint(LatestUrl(assetId)));
    if check.Some? {
      return Err(check.value);
    }
    var p := new Prober(assetId);
    var ticks := 0;
    while !p.stopped && ticks < maxTicks
      invariant p.Valid() && fresh(p.store) && p.assetId == assetId
      invariant ticks <= maxTicks && p.nextVersion == ticks + 1
      invariant Below(p.store.versions, p.nextVersion)
      invariant Discover(assetId, endpoint, head, 1, maxTicks) ==
        p.store.versions +
        (if p.stopped then [] else Discover(assetId, endpoint, head, p.nextVersion, maxTicks - ticks))
      decreases maxTicks - ticks
    {
      ghost var before, next := p.store.versions, p.nextVersion;
      var outcome := p.Probe(endpoint, head);
      assert outcome == ProbeOutcome(assetId, next, endpoint, head);
      ghost var now := if outcome.Recorded? then before + [outcome.record] else before;
      if outcome.Recorded? {
        RecordAppends(before, outcome.record);
      }
      assert p.store.versions == now;
      DiscoverStep(assetId, endpoint, head, next, maxTicks - ticks, before, outcome, now);
      assert p.stopped == outcome.Exhausted? && p.nextVersion == next + 1;
      ticks := ticks + 1;
    }
    assert Discover(assetId, endpoint, head, 1, maxTicks) == p.store.versions;
    return Ok(p.store.versions);
  }

  // ----- what a sequential run collects -----

  /** Under this one-probe-at-a-time schedule the collected records are in strictly
      ascending order of version, every version lies in the probed range, and every date
      is header text. */
  lemma {:induction false} DiscoverAscending(assetId: nat, endpoint: string -> MetadataResponse,
                                             head: string -> HeadResponse, next: nat, fuel: nat)
    ensures var r := Discover(assetId, endpoint, head, next, fuel);
      (forall i :: 0 <= i < |r| ==> next <= r[i].version < next + fuel) &&
      (forall i, j :: 0 <= i < j < |r| ==> r[i].version < r[j].version) &&
      DatesAreHeaderText(r)
    decreases fuel
  {
    if fuel > 0 {
      DiscoverAscending(assetId, endpoint, head, next + 1, fuel - 1);
      var rest := Discover(assetId, endpoint, head, next + 1, fuel - 1);
      var o := ProbeOutcome(assetId, next, endpoint, head);
      if o.Recorded? {
        var r := [o.record] + rest;
        assert forall i :: 0 < i < |r| ==> r[i] == rest[i - 1];
      }
    }
  }

  /** No probe from `next` up to (not including) `k` found the versions exhausted. */
  ghost predicate Reaches(assetId: nat, endpoint: string -> MetadataResponse,
                          head: string -> HeadResponse, next: nat, k: nat)
  {
    forall j :: next <= j < k ==> !ProbeOutcome(assetId, j, endpoint, head).Exhausted?
  }

  /** A record is collected exactly when some probe in range produced it and no earlier
      probe of the run found the versions exhausted. */
  lemma {:induction false} DiscoverMembers(assetId: nat, endpoint: string -> MetadataResponse,
                                           head: string -> HeadResponse, next: nat, fuel: nat,
                                           v: Version)
    ensures v in Discover(assetId, endpoint, head, next, fuel) <==>
      exists k :: next <= k < next + fuel &&
        ProbeOutcome(assetId, k, endpoint, head) == Recorded(v) &&
        Reaches(assetId, endpoint, head, next, k)
    decreases fuel
  {
    if fuel > 0 {
      DiscoverMembers(assetId, endpoint, head, next + 1, fuel - 1, v);
      var o := ProbeOutcome(assetId, next, endpoint, head);
      var rest := Discover(assetId, endpoint, head, next + 1, fuel - 1);
      if v in Discover(assetId, endpoint, head, next, fuel) {
        if o == Recorded(v) {
          assert Reaches(assetId, endpoint, head, next, next);
        } else {
          assert v in rest;
          var k :| next + 1 <= k < next + fuel &&
            ProbeOutcome(assetId, k, endpoint, head) == Recorded(v) &&
            Reaches(assetId, endpoint, head, next + 1, k);
          assert Reaches(assetId, endpoint, head, next, k);
        }
      }
      if exists k :: next <= k < next + fuel &&
          ProbeOutcome(assetId, k, endpoint, head) == Recorded(v) &&
          Reaches(assetId, endpoint, head, next, k)
      {
        var k :| next <= k < next + fuel &&
          ProbeOutcome(assetId, k, endpoint, head) == Recorded(v) &&
          Reaches(assetId, endpoint, head, next, k);
        if k > next {
          assert !o.Exhausted?;
          assert Reaches(assetId, endpoint, head, next + 1, k);
          assert v in rest;
        }
      }
    }
  }

  /** Once a probe finds the versions exhausted, no record of that version or a later
      one is collected. */
  lemma {:induction false} ExhaustedEndsRun(assetId: nat, endpoint: string -> MetadataResponse,
                                            head: string -> HeadResponse, next: nat, fuel: nat,
                                            k: nat)
    requires next <= k && ProbeOutcome(assetId, k, endpoint, head).Exhausted?
    ensures forall v :: v in Discover(assetId, endpoint, head, next, fuel) ==> v.version < k
    decreases fuel
  {
    if fuel > 0 && next < k {
      ExhaustedEndsRun(assetId, endpoint, head, next + 1, fuel - 1, k);
    }
  }

  /** A run that finds `n` versions and then an error payload, within its tick budget,
      collects exactly those `n` records, in probe order. */
  lemma {:induction false} DiscoverFindsRun(assetId: nat, endpoint: string -> MetadataResponse,
                                            head: string -> HeadResponse, next: nat, fuel: nat,
                                            found: seq<Version>)
    requires |found| < fuel
    requires forall i :: 0 <= i < |found| ==>
      ProbeOutcome(assetId, next + i, endpoint, head) == Recorded(found[i])
    requires ProbeOutcome(assetId, next + |found|, endpoint, head).Exhausted?
    ensures Discover(assetId, endpoint, head, next, fuel) == found
    decreases fuel
  {
    if found != [] {
      assert ProbeOutcome(assetId, next, endpoint, head) == Recorded(found[0]);
      DiscoverFindsRun(assetId, endpoint, head, next + 1, fuel - 1, found[1..]);
      assert [found[0]] + found[1..] == found;
    }
  }

  /** What a successful run leaves behind: records sorted strictly by version, each from
      a probe before the first exhausted one, and a `versions.txt` text that reads back
      as exactly this collection. */
  lemma RunCollects(assetId: nat, endpoint: string -> MetadataResponse,
                    head: string -> HeadResponse, maxTicks: nat)
    ensures RunResult(assetId, endpoint, head, maxTicks).Err? <==>
      StartupCheck(endpoint(LatestUrl(assetId))).Some?
    ensures RunResult(assetId, endpoint, head, maxTicks).Ok? ==>
      var r := RunResult(assetId, endpoint, head, maxTicks).value;
      SortedByVersion(r) &&
      (forall i, j :: 0 <= i < j < |r| ==> r[i].version < r[j].version) &&
      (forall i :: 0 <= i < |r| ==> 1 <= r[i].version <= maxTicks) &&
      ParseFile(FileContents(assetId, r)) == Some((assetId, r))
  {
    if StartupCheck(endpoint(LatestUrl(assetId))).None? {
      var r := Discover(assetId, endpoint, head, 1, maxTicks);
      DiscoverAscending(assetId, endpoint, head, 1, maxTicks);
      forall i | 0 <= i < |r| ensures NoNewline(r[i].date) {
        assert r[i] in r;
      }
      FileRoundTrip(assetId, r);
    }
  }
}
