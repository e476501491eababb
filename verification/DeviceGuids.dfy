/** `device_guids.py`: choosing the newest matching device and remembering its identifier.
    The listing is given as parsed lines; the patterns themselves are not modelled. */
module DeviceGuids {
  import opened Wrappers

  /** A version; a missing third part is read as 0. */
  datatype Version = Version(major: nat, minor: nat, patch: nat)

  /** One line of the device listing, for the device asked for. */
  datatype Line =
    | Other                                       // no match, skipped
    | Unversioned                                 // matches, but the version cannot be read: an exception
    | Device(version: Version, guid: string)

  datatype Error = VersionUnreadable | NoDevice

  // ---------- the order of versions

  /** `is_version_higher` */
  predicate IsVersionHigher(orig: Version, candidate: Version) {
    if candidate.major > orig.major then true
    else if candidate.major < orig.major then false
    else if candidate.minor > orig.minor then true
    else if candidate.minor < orig.minor then false
    else candidate.patch > orig.patch
  }

  /** It is a strict total order, by the three numbers. */
  lemma VersionsAreTotallyOrdered(a: Version, b: Version, c: Version)
    ensures IsVersionHigher(a, b) <==> Below(a, b)
    ensures !IsVersionHigher(a, a)
    ensures IsVersionHigher(a, b) ==> !IsVersionHigher(b, a)
    ensures IsVersionHigher(a, b) && IsVersionHigher(b, c) ==> IsVersionHigher(a, c)
    ensures a != b ==> IsVersionHigher(a, b) || IsVersionHigher(b, a)
  {
  }

  /** `a` is below `b`: the first of major, minor and patch in which they differ is smaller. */
  predicate Below(a: Version, b: Version) {
    || a.major < b.major
    || (a.major == b.major && a.minor < b.minor)
    || (a.major == b.major && a.minor == b.minor && a.patch < b.patch)
  }

  /** The second version is the higher one exactly when the first is below it. */
  lemma HigherIff(orig: Version, candidate: Version)
    ensures IsVersionHigher(orig, candidate) <==> Below(orig, candidate)
    ensures orig.major < candidate.major ==> IsVersionHigher(orig, candidate)
    ensures orig.major > candidate.major ==> !IsVersionHigher(orig, candidate)
    ensures orig.major == candidate.major && orig.minor < candidate.minor ==> IsVersionHigher(orig, candidate)
    ensures orig.major == candidate.major && orig.minor > candidate.minor ==> !IsVersionHigher(orig, candidate)
    ensures orig.major == candidate.major && orig.minor == candidate.minor ==>
              (IsVersionHigher(orig, candidate) <==> orig.patch < candidate.patch)
  {
  }

  // ---------- the selection loop

  /** Line `i` is the one chosen: no device has a higher version, and every earlier one a lower version. */
  predicate IsFirstNewest(listing: seq<Line>, i: nat)
    requires i < |listing|
  {
    && listing[i].Device?
    && (forall j | 0 <= j < |listing| && listing[j].Device? :: !IsVersionHigher(listing[i].version, listing[j].version))
    && (forall j | 0 <= j < i && listing[j].Device? :: IsVersionHigher(listing[j].version, listing[i].version))
  }

  predicate AllReadable(listing: seq<Line>) {
    forall j | 0 <= j < |listing| :: !listing[j].Unversioned?
  }

  predicate AnyDevice(listing: seq<Line>) {
    exists j | 0 <= j < |listing| :: listing[j].Device?
  }

  /** Where the chosen line is; -1 if there is no device. */
  function ChosenLine(listing: seq<Line>): (i: int)
    ensures -1 <= i < |listing|
    ensures i == -1 <==> !AnyDevice(listing)
    ensures 0 <= i ==> IsFirstNewest(listing, i)
  {
    if listing == [] then -1
    else
      var n := |listing| - 1;
      var init := listing[..n];
      var best := ChosenLine(init);
      assert forall j | 0 <= j < n :: init[j] == listing[j];
      if !listing[n].Device? then best
      else if best == -1 then
        assert forall j | 0 <= j < n :: !init[j].Device?;
        n
      else
        if IsVersionHigher(listing[best].version, listing[n].version) then n else best
  }

  /** `get_guid_i`: an unreadable version ends the loop with an exception; otherwise the identifier of
      the chosen line, or None. */
  function Lookup(listing: seq<Line>): Result<Option<string>, Error> {
    if !AllReadable(listing) then Err(VersionUnreadable)
    else if ChosenLine(listing) == -1 then Ok(None)
    else Ok(Some(listing[ChosenLine(listing)].guid))
  }

  method GetGuidI(listing: seq<Line>) returns (r: Result<Option<string>, Error>)
    ensures r == Lookup(listing)
    ensures IsAnswer(listing, r)
  {
    LookupAnswers(listing);
    var latestOsDevice: Option<string>, latestOsVersion: Option<Version> := None, None;
    for k := 0 to |listing|
      invariant AllReadable(listing[..k])
      invariant var best := ChosenLine(listing[..k]);
                if best == -1 then latestOsDevice == None && latestOsVersion == None
                else latestOsDevice == Some(listing[best].guid) && latestOsVersion == Some(listing[best].version)
    {
      assert listing[..k + 1][..k] == listing[..k];
      match listing[k] {
        case Other =>
        case Unversioned =>
          return Err(VersionUnreadable);
        case Device(version, guid) =>
          if latestOsVersion == None || IsVersionHigher(latestOsVersion.value, version) {
            latestOsDevice := Some(guid);
            latestOsVersion := Some(version);
          }
      }
    }
    assert listing[..|listing|] == listing;
    return Ok(latestOsDevice);
  }

  /** Line `i` lists a device with that identifier; no listed device is above it in (major, minor, patch), and
      every earlier one is below it. */
  predicate NewestAt(listing: seq<Line>, i: nat, guid: string) {
    && i < |listing| && listing[i].Device? && listing[i].guid == guid
    && (forall j | 0 <= j < |listing| && listing[j].Device? :: !Below(listing[i].version, listing[j].version))
    && (forall j | 0 <= j < i && listing[j].Device? :: Below(listing[j].version, listing[i].version))
  }

  /** All answers of a scan: an exception iff some matching version cannot be read, otherwise None iff no
      device is listed, otherwise the identifier of the first of the newest devices. */
  lemma LookupIff(listing: seq<Line>, guid: string)
    ensures Lookup(listing) == Err(VersionUnreadable) <==> exists i :: 0 <= i < |listing| && listing[i].Unversioned?
    ensures Lookup(listing).Err? ==> Lookup(listing) == Err(VersionUnreadable)
    ensures Lookup(listing) == Ok(None) <==> forall i | 0 <= i < |listing| :: listing[i].Other?
    ensures Lookup(listing) == Ok(Some(guid)) <==> AllReadable(listing) && exists i :: NewestAt(listing, i, guid)
  {
    forall i: nat | i < |listing|
      ensures NewestAt(listing, i, guid) <==> ChosenLine(listing) == i && listing[i].guid == guid
    {
      ChosenLineIsUnique(listing, i);
      if listing[i].Device? {
        NewestIff(listing, i);
      }
    }
  }

  /** The answers of a scan, by the lines of the listing alone. */
  ghost predicate IsAnswer(listing: seq<Line>, r: Result<Option<string>, Error>) {
    match r
    case Err(_) => exists i :: 0 <= i < |listing| && listing[i].Unversioned?
    case Ok(None) => forall i | 0 <= i < |listing| :: listing[i].Other?
    case Ok(Some(guid)) => AllReadable(listing) && exists i :: NewestAt(listing, i, guid)
  }

  lemma LookupAnswers(listing: seq<Line>)
    ensures IsAnswer(listing, Lookup(listing))
  {
    LookupIff(listing, match Lookup(listing) case Ok(Some(guid)) => guid case _ => "");
  }

  lemma NewestIff(listing: seq<Line>, i: nat)
    requires i < |listing| && listing[i].Device?
    ensures IsFirstNewest(listing, i) <==> NewestAt(listing, i, listing[i].guid)
  {
    forall j | 0 <= j < |listing| && listing[j].Device?
      ensures IsVersionHigher(listing[i].version, listing[j].version) <==> Below(listing[i].version, listing[j].version)
      ensures IsVersionHigher(listing[j].version, listing[i].version) <==> Below(listing[j].version, listing[i].version)
    {
      HigherIff(listing[i].version, listing[j].version);
      HigherIff(listing[j].version, listing[i].version);
    }
  }

  /** The chosen line is the only one that is first among the newest. */
  lemma ChosenLineIsUnique(listing: seq<Line>, i: nat)
    requires i < |listing|
    ensures IsFirstNewest(listing, i) <==> ChosenLine(listing) == i
  {
  }

  /** No other device in the listing has the version of the chosen one. */
  ghost predicate UniqueNewest(listing: seq<Line>, newest: Line) {
    && newest.Device? && newest in listing
    && forall l | l in listing && l.Device? && l != newest :: IsVersionHigher(l.version, newest.version)
  }

  lemma UniqueNewestIsChosen(listing: seq<Line>, newest: Line)
    requires UniqueNewest(listing, newest)
    ensures ChosenLine(listing) >= 0 && listing[ChosenLine(listing)] == newest
  {
  }

  /** Reordering the listing does not change the result when one device is newer than all others. */
  lemma OrderDoesNotMatter(listing: seq<Line>, reordered: seq<Line>, newest: Line)
    requires multiset(listing) == multiset(reordered)
    requires UniqueNewest(listing, newest)
    ensures Lookup(reordered) == Lookup(listing)
  {
    forall l
      ensures l in listing <==> l in reordered
    {
      assert l in listing <==> l in multiset(listing);
      assert l in reordered <==> l in multiset(reordered);
    }
    UniqueNewestIsChosen(listing, newest);
    UniqueNewestIsChosen(reordered, newest);
    ReadableByMembers(listing);
    ReadableByMembers(reordered);
  }

  lemma ReadableByMembers(listing: seq<Line>)
    ensures AllReadable(listing) <==> Unversioned !in listing
  {
  }

  // ---------- the cache

  type Cache = map<string, Option<string>>

  /** `get_guid`: a lookup that finds no device raises. */
  function Found(listing: seq<Line>): Result<Option<string>, Error> {
    match Lookup(listing)
    case Err(e) => Err(e)
    case Ok(None) => Err(NoDevice)
    case Ok(Some(guid)) => Ok(Some(guid))
  }

  /** A lookup raises iff a matching version cannot be read or no device is listed, and otherwise answers the
      identifier of the first of the newest devices. */
  lemma FoundIff(listing: seq<Line>, guid: string)
    ensures Found(listing) == Ok(Some(guid)) <==> AllReadable(listing) && exists i :: NewestAt(listing, i, guid)
    ensures Found(listing).Ok? <==> AllReadable(listing) && AnyDevice(listing)
    ensures Found(listing).Ok? ==> Found(listing).value.Some?
    ensures Found(listing) == Err(VersionUnreadable) <==> !AllReadable(listing)
    ensures Found(listing) == Err(NoDevice) <==> AllReadable(listing) && !AnyDevice(listing)
  {
    LookupIff(listing, guid);
  }

  /** One call of `get_ios`: the answer, and the cache after it. */
  datatype Call = Call(device: string, listing: seq<Line>)

  datatype CallResult = CallResult(cache: Cache, answer: Result<Option<string>, Error>, scanned: bool)

  function CallStep(cache: Cache, call: Call): CallResult {
    if call.device in cache then CallResult(cache, Ok(cache[call.device]), false)
    else
      match Found(call.listing)
      case Err(e) => CallResult(cache, Err(e), true)
      case Ok(guid) => CallResult(cache[call.device := guid], Ok(guid), true)
  }

  class DeviceCache {
    var guid: Cache

    constructor ()
      ensures guid == map[]
    {
      guid := map[];
    }

    method GetGuid(listing: seq<Line>) returns (answer: Result<Option<string>, Error>)
      ensures answer == Found(listing)
    {
      var found := GetGuidI(listing);
      if found.Ok? && found.value == None {
        return Err(NoDevice);
      }
      return found;
    }

    /** `get_ios` */
    method GetIos(device: string, listing: seq<Line>) returns (answer: Result<Option<string>, Error>)
      modifies this
      ensures var r := CallStep(old(guid), Call(device, listing)); answer == r.answer && guid == r.cache
    {
      if device in guid {
        return Ok(guid[device]);
      }
      answer := GetGuid(listing);
      if answer.Ok? {
        guid := guid[device := answer.value];
      }
    }
  }

  /** The cache after a sequence of calls, starting empty. */
  function CacheAfter(calls: seq<Call>): Cache {
    if calls == [] then map[] else CallStep(CacheAfter(calls[..|calls| - 1]), calls[|calls| - 1]).cache
  }

  /** What the `i`-th call of a sequence answers. */
  function ResultOf(calls: seq<Call>, i: nat): CallResult
    requires i < |calls|
  {
    CallStep(CacheAfter(calls[..i]), calls[i])
  }

  /** The first call for a device whose scan succeeded. */
  predicate IsFirstSuccess(calls: seq<Call>, device: string, i: nat) {
    && i < |calls| && calls[i].device == device && Found(calls[i].listing).Ok?
    && forall j | 0 <= j < i && calls[j].device == device :: Found(calls[j].listing).Err?
  }

  /** The cache holds, for exactly the devices with a successful scan so far, what the first one found. */
  lemma {:induction false} CacheHoldsFirstSuccess(calls: seq<Call>, device: string)
    ensures device in CacheAfter(calls) <==> exists i :: IsFirstSuccess(calls, device, i)
    ensures forall i: nat | IsFirstSuccess(calls, device, i) ::
              device in CacheAfter(calls) && Ok(CacheAfter(calls)[device]) == Found(calls[i].listing)
  {
    if calls != [] {
      var n := |calls| - 1;
      var init := calls[..n];
      CacheHoldsFirstSuccess(init, device);
      assert forall j | 0 <= j < n :: init[j] == calls[j];
      forall i: nat | i < n
        ensures IsFirstSuccess(calls, device, i) <==> IsFirstSuccess(init, device, i)
      {
      }
      if device !in CacheAfter(init) {
        NoFirstSuccessMeansAllFail(init, device);
        if calls[n].device == device && Found(calls[n].listing).Ok? {
          assert IsFirstSuccess(calls, device, n);
        }
      } else {
        var i: nat :| IsFirstSuccess(init, device, i);
        assert IsFirstSuccess(calls, device, i);
        assert !IsFirstSuccess(calls, device, n);
      }
      assert forall i: nat | IsFirstSuccess(calls, device, i) :: i == n || IsFirstSuccess(init, device, i);
    }
  }

  lemma {:induction false} NoFirstSuccessMeansAllFail(calls: seq<Call>, device: string)
    requires !exists i :: IsFirstSuccess(calls, device, i)
    ensures forall j | 0 <= j < |calls| && calls[j].device == device :: Found(calls[j].listing).Err?
  {
    if calls != [] {
      var n := |calls| - 1;
      var init := calls[..n];
      if i :| IsFirstSuccess(init, device, i) {
        assert IsFirstSuccess(calls, device, i);
      }
      NoFirstSuccessMeansAllFail(init, device);
      assert forall j | 0 <= j < n :: init[j] == calls[j];
      if calls[n].device == device && Found(calls[n].listing).Ok? {
        assert IsFirstSuccess(calls, device, n);
      }
    }
  }

  /** Over any sequence of calls with any listings, a call answers what the first successful scan for its
      device found and scans only if there was none before it; a failing call leaves the cache as it was. */
  lemma CallsAgree(calls: seq<Call>, device: string, first: nat, i: nat)
    requires IsFirstSuccess(calls, device, first)
    requires first <= i < |calls| && calls[i].device == device
    ensures ResultOf(calls, i).answer == Found(calls[first].listing)
    ensures ResultOf(calls, i).scanned <==> i == first
  {
    var before := calls[..i];
    CacheHoldsFirstSuccess(before, device);
    assert forall j | 0 <= j < i :: before[j] == calls[j];
    if first < i {
      assert IsFirstSuccess(before, device, first);
    } else if j :| IsFirstSuccess(before, device, j) {
      assert false;
    }
  }

  /** The first call for a device whose listing is readable and lists a device. */
  predicate FirstListed(calls: seq<Call>, device: string, i: nat) {
    && i < |calls| && calls[i].device == device && AllReadable(calls[i].listing) && AnyDevice(calls[i].listing)
    && forall j | 0 <= j < i && calls[j].device == device :: !AllReadable(calls[j].listing) || !AnyDevice(calls[j].listing)
  }

  lemma FirstListedIff(calls: seq<Call>, device: string, i: nat)
    ensures FirstListed(calls, device, i) <==> IsFirstSuccess(calls, device, i)
  {
    forall listing
      ensures Found(listing).Ok? <==> AllReadable(listing) && AnyDevice(listing)
    {
      FoundIff(listing, "");
    }
  }

  /** `get_ios` over any calls: from the first listing with a device on, the answer is the identifier of the
      first of the newest devices in that listing, whatever is listed later. */
  lemma AnswersAreNewest(calls: seq<Call>, device: string, first: nat, i: nat, guid: string)
    requires FirstListed(calls, device, first)
    requires first <= i < |calls| && calls[i].device == device
    ensures ResultOf(calls, i).answer == Ok(Some(guid)) <==> exists k :: NewestAt(calls[first].listing, k, guid)
    ensures ResultOf(calls, i).answer.Ok? && ResultOf(calls, i).answer.value.Some?
  {
    FirstListedIff(calls, device, first);
    CallsAgree(calls, device, first, i);
    FoundIff(calls[first].listing, guid);
  }

  /** Before that, every call raises what its own listing gives rise to. */
  lemma EarlyCallsRaise(calls: seq<Call>, i: nat)
    requires i < |calls|
    requires forall j | 0 <= j <= i :: !FirstListed(calls, calls[i].device, j)
    ensures ResultOf(calls, i).answer == Err(if AllReadable(calls[i].listing) then NoDevice else VersionUnreadable)
  {
    var device := calls[i].device;
    NothingListedYet(calls, device, i);
    CacheHoldsFirstSuccess(calls[..i], device);
    NothingListedYet(calls, device, i + 1);
    NoFirstSuccessMeansAllFail(calls[..i + 1], device);
    assert calls[..i + 1][i] == calls[i];
    FoundIff(calls[i].listing, "");
  }

  lemma NothingListedYet(calls: seq<Call>, device: string, n: nat)
    requires n <= |calls| && forall j | 0 <= j < n :: !FirstListed(calls, device, j)
    ensures var before := calls[..n]; !exists j :: IsFirstSuccess(before, device, j)
  {
    var before := calls[..n];
    if j :| IsFirstSuccess(before, device, j) {
      FirstListedIff(before, device, j);
      ListedBefore(calls, device, n, j);
    }
  }

  lemma ListedBefore(calls: seq<Call>, device: string, n: nat, j: nat)
    requires n <= |calls| && FirstListed(calls[..n], device, j)
    ensures FirstListed(calls, device, j)
  {
    assert forall l | 0 <= l <= j :: calls[..n][l] == calls[l];
  }

  lemma FailingCallChangesNothing(cache: Cache, call: Call)
    ensures CallStep(cache, call).answer.Err? ==> CallStep(cache, call).cache == cache
  {
  }

  /** The cache never holds None. */
  lemma {:induction false} CacheNeverHoldsNone(calls: seq<Call>)
    ensures forall device | device in CacheAfter(calls) :: CacheAfter(calls)[device].Some?
  {
    if calls != [] {
      CacheNeverHoldsNone(calls[..|calls| - 1]);
    }
  }
}
