/**
 The server's list of scanners: SANE's enumeration, the device objects built from it, and the cache that asks for
 a new one at most every 30 seconds.  The pointers SANE returns stay valid until the next enumeration (section
 4.3.3 of the SANE Standard); here each carries the number of its enumeration.
 */
module ScannerCache {
  import opened Bytes

  /** What SANE says of one device. */
  datatype Info = Info(name: string, vendor: string, model: string, kind: string)

  /** A `SANE_Device*`: what it points to, and the enumeration it came from. */
  datatype RawDevice = RawDevice(info: Info, generation: nat)

  /** What a client is told of one device; the details need a valid pointer. */
  datatype ScannerInfo = ScannerInfo(name: string, details: Option<Info>)

  /** 30 seconds in the clock's nanoseconds. */
  const REFRESH_INTERVAL: int := 30_000_000_000

  class CachedDevice {
    const name: string
    var raw: Option<RawDevice>

    constructor (raw: RawDevice)
      ensures this.raw == Some(raw) && this.name == raw.info.name
    {
      this.name := raw.info.name;
      this.raw := Some(raw);
    }

    method ClearRawDevice()
      modifies this
      ensures raw == None
    {
      raw := None;
    }
  }

  /** `CSane`: the owner of the device objects. */
  class CSane {
    var devices: seq<CachedDevice>
    var generation: nat

    constructor ()
      ensures devices == [] && generation == 0
    {
      devices, generation := [], 0;
    }

    /** `listing` is what SANE enumerates, or nothing when it fails. */
    method GetDevices(listing: Option<seq<Info>>) returns (weak: seq<CachedDevice>)
      modifies this, devices
      ensures forall d :: d in old(devices) ==> d.raw == None
      ensures generation == old(generation) + 1
      ensures weak == devices && |devices| == if listing.Some? then |listing.value| else 0
      ensures forall i :: 0 <= i < |devices| ==>
                && fresh(devices[i]) && devices[i].name == listing.value[i].name
                && devices[i].raw == Some(RawDevice(listing.value[i], generation))
    {
      ClearAll();
      devices := [];
      generation := generation + 1;
      if listing.Some? {
        for i := 0 to |listing.value|
          invariant |devices| == i
          invariant forall j :: 0 <= j < i ==>
                      && fresh(devices[j]) && devices[j].name == listing.value[j].name
                      && devices[j].raw == Some(RawDevice(listing.value[j], generation))
          invariant generation == old(generation) + 1
          invariant forall d :: d in old(devices) ==> d.raw == None
        {
          var device := new CachedDevice(RawDevice(listing.value[i], generation));
          devices := devices + [device];
        }
      }
      weak := devices;
    }

    method ClearAll()
      modifies devices
      ensures forall d :: d in devices ==> d.raw == None
    {
      for i := 0 to |devices|
        invariant forall j :: 0 <= j < i ==> devices[j].raw == None
      {
        devices[i].ClearRawDevice();
      }
    }
  }

  /** When an enumeration was decided on, and when its time was noted. */
  datatype Enumeration = Enumeration(begin: int, end: int)

  predicate Apart(log: seq<Enumeration>) {
    && (log != [] ==> log[0].begin > 30_000_000_000)
    && forall i :: 0 < i < |log| ==> log[i].begin > log[i - 1].end + 30_000_000_000
  }

  datatype Request =
    | GetScanners(now: int, later: int, listing: Option<seq<Info>>)
    | RefreshScanners(now: int, later: int, listing: Option<seq<Info>>)
    | Scan(name: string)
    | ScanDone

  /** What the cache knows: the latest listing, and every enumeration there has been. */
  datatype Cache = Cache(latest: seq<Info>, log: seq<Enumeration>)

  function LastFetch(log: seq<Enumeration>): int {
    if log == [] then 0 else log[|log| - 1].end
  }

  /** A refresh asked for at `now` and done by `later`; a failed enumeration lists nothing. */
  function Refreshed(c: Cache, now: int, later: int, listing: Option<seq<Info>>): Cache {
    if now > LastFetch(c.log) + REFRESH_INTERVAL then
      Cache(if listing.Some? then listing.value else [], c.log + [Enumeration(now, later)])
    else c
  }

  function Handled(c: Cache, r: Request): Cache {
    match r
    case GetScanners(now, later, listing) => if c.latest == [] then Refreshed(c, now, later, listing) else c
    case RefreshScanners(now, later, listing) => Refreshed(c, now, later, listing)
    case Scan(_) => c
    case ScanDone => c
  }

  function HandledAll(c: Cache, requests: seq<Request>): Cache {
    if requests == [] then c else Handled(HandledAll(c, requests[..|requests| - 1]), requests[|requests| - 1])
  }

  /** Whatever requests come, at whatever times, enumerations stay apart. */
  lemma {:induction false} EnumerationsStayApart(c: Cache, requests: seq<Request>)
    requires Apart(c.log)
    ensures Apart(HandledAll(c, requests).log) && c.log <= HandledAll(c, requests).log
  {
    if requests != [] {
      EnumerationsStayApart(c, requests[..|requests| - 1]);
    }
  }

  /** Enumerations are more than 30 seconds apart, if the clock does not run backwards during one. */
  lemma {:induction false} AnyTwoApart(log: seq<Enumeration>, i: nat, j: nat)
    requires Apart(log) && i < j < |log| && forall k :: 0 <= k < |log| ==> log[k].begin <= log[k].end
    ensures log[j].begin > log[i].end + 30_000_000_000
    decreases j
  {
    if i < j - 1 {
      AnyTwoApart(log, i, j - 1);
    }
  }

  /** A refresh is due when the clock is more than 30 seconds past the end of the last enumeration, or past zero. */
  predicate Due(log: seq<Enumeration>, now: int) {
    now > (if log == [] then 0 else log[|log| - 1].end) + 30_000_000_000
  }

  /** The cache has been filled anew with what SANE listed: nothing, when it failed. */
  predicate Filled(before: Cache, after: Cache, now: int, later: int, listing: Option<seq<Info>>) {
    && after.log == before.log + [Enumeration(now, later)]
    && after.latest == match listing { case Some(infos) => infos case None => [] }
  }

  /** After any requests, a refresh enumerates if and only if it is due. */
  lemma RefreshWhenDue(c: Cache, requests: seq<Request>, now: int, later: int, listing: Option<seq<Info>>)
    ensures var before := HandledAll(c, requests);
            var after := HandledAll(c, requests + [RefreshScanners(now, later, listing)]);
            if Due(before.log, now) then Filled(before, after, now, later, listing) else after == before
  {
    assert (requests + [RefreshScanners(now, later, listing)])[..|requests|] == requests;
  }

  /** And asking for the scanners does so if and only if it is due and none are known. */
  lemma ListingWhenDue(c: Cache, requests: seq<Request>, now: int, later: int, listing: Option<seq<Info>>)
    ensures var before := HandledAll(c, requests);
            var after := HandledAll(c, requests + [GetScanners(now, later, listing)]);
            if before.latest == [] && Due(before.log, now) then Filled(before, after, now, later, listing)
            else after == before
  {
    assert (requests + [GetScanners(now, later, listing)])[..|requests|] == requests;
  }

  /** Request `k` asked for scanners, and filled the cache with what is in it after all of them. */
  predicate FilledBy(c: Cache, requests: seq<Request>, k: nat, after: Cache)
    requires k < |requests|
  {
    var r := requests[k];
    && (r.GetScanners? || r.RefreshScanners?)
    && Filled(HandledAll(c, requests[..k]), after, r.now, r.later, r.listing)
  }

  /** What is known after any requests is what was listed at the last of them that enumerated. */
  lemma {:induction false} LatestIsLastListing(c: Cache, requests: seq<Request>)
    ensures var after := HandledAll(c, requests);
            after == c || exists k :: 0 <= k < |requests| && FilledBy(c, requests, k, after)
  {
    if requests != [] {
      var before := requests[..|requests| - 1];
      LatestIsLastListing(c, before);
      if HandledAll(c, requests) != HandledAll(c, before) {
        assert FilledBy(c, requests, |before|, HandledAll(c, requests));
      } else if HandledAll(c, before) != c {
        var k :| 0 <= k < |before| && FilledBy(c, before, k, HandledAll(c, before));
        assert before[..k] == requests[..k];
        assert FilledBy(c, requests, k, HandledAll(c, requests));
      }
    }
  }

  /** `CScannerService`, with the scans in progress, which hold their devices too. */
  class CScannerService {
    const sane: CSane
    var devices: seq<CachedDevice>      // weak references
    var lastDeviceFetch: int
    var scanning: set<CachedDevice>     // strong references held by reactors
    ghost var latest: seq<Info>
    ghost var log: seq<Enumeration>
    ghost var created: set<CachedDevice>

    /** Nobody owns the object any more. */
    predicate Expired(d: CachedDevice)
      reads this, sane
    {
      d !in sane.devices && d !in scanning
    }

    ghost predicate Valid()
      reads this, sane, created
    {
      && devices == sane.devices && |devices| == |latest|
      && (forall i :: 0 <= i < |devices| ==> devices[i] in created) && scanning <= created
      && (forall i :: 0 <= i < |devices| ==> Lists(devices[i], latest[i]))
      && (forall d :: d in created && d.raw.Some? ==> d in sane.devices && d.raw.value.generation == sane.generation)
      && lastDeviceFetch == LastFetch(log)
    }

    ghost function View(): Cache
      reads this
    {
      Cache(latest, log)
    }

    ghost predicate Lists(d: CachedDevice, info: Info)
      reads this, sane, d
    {
      d.name == info.name && d.raw == Some(RawDevice(info, sane.generation))
    }

    constructor ()
      ensures Valid() && fresh(sane) && log == [] && latest == [] && created == {} && scanning == {}
    {
      var s := new CSane();
      sane, devices, lastDeviceFetch, scanning, latest, log, created := s, [], 0, {}, [], [], {};
    }

    /** `now` and `later` are the two readings of the clock. */
    method RefreshDevices(now: int, later: int, listing: Option<seq<Info>>)
      requires Valid()
      modifies this, sane, devices
      ensures Valid() && scanning == old(scanning) && old(created) <= created && fresh(created - old(created))
      ensures View() == Refreshed(old(View()), now, later, listing)
      ensures if Due(old(log), now) then Filled(old(View()), View(), now, later, listing) else View() == old(View())
      ensures if log == old(log) then devices == old(devices) && sane.generation == old(sane.generation)
              else sane.generation == old(sane.generation) + 1 && forall d :: d in devices ==> fresh(d)
    {
      if now > lastDeviceFetch + REFRESH_INTERVAL {
        devices := sane.GetDevices(listing);
        lastDeviceFetch := later;
        latest := if listing.Some? then listing.value else [];
        log := log + [Enumeration(now, later)];
        created := created + set d | d in devices;
      }
    }

    /** The first live device of that name. */
    method FindDevice(name: string) returns (found: CachedDevice?)
      requires Valid()
      ensures found == null <==> forall i :: 0 <= i < |latest| ==> latest[i].name != name
      ensures found != null ==>
                exists i :: && 0 <= i < |latest| && devices[i] == found && latest[i].name == name
                            && forall j :: 0 <= j < i ==> latest[j].name != name
    {
      for i := 0 to |devices|
        invariant forall j :: 0 <= j < i ==> latest[j].name != name
      {
        if !Expired(devices[i]) {
          if devices[i].name == name {
            return devices[i];
          }
        }
        assert Lists(devices[i], latest[i]);
      }
      found := null;
    }

    method GetScanners(now: int, later: int, listing: Option<seq<Info>>) returns (response: seq<ScannerInfo>)
      requires Valid()
      modifies this, sane, devices
      ensures Valid() && scanning == old(scanning) && old(created) <= created && fresh(created - old(created))
      ensures View() == Handled(old(View()), Request.GetScanners(now, later, listing))
      ensures if old(latest) == [] && Due(old(log), now) then Filled(old(View()), View(), now, later, listing)
              else View() == old(View())
      ensures |response| == |latest|
      ensures forall i :: 0 <= i < |latest| ==> response[i] == ScannerInfo(latest[i].name, Some(latest[i]))
    {
      if devices == [] {
        RefreshDevices(now, later, listing);
      }
      response := [];
      for i := 0 to |devices|
        invariant |response| == i
        invariant forall j :: 0 <= j < i ==> response[j] == ScannerInfo(latest[j].name, Some(latest[j]))
      {
        assert Lists(devices[i], latest[i]);
        if !Expired(devices[i]) {
          var raw := devices[i].raw;
          response := response + [ScannerInfo(devices[i].name, if raw.Some? then Some(raw.value.info) else None)];
        }
      }
    }

    /** A scan takes hold of its device until it ends. */
    method Scan(name: string) returns (device: CachedDevice?)
      requires Valid()
      modifies this`scanning
      ensures Valid() && View() == old(View())
      ensures device == null <==> forall i :: 0 <= i < |latest| ==> latest[i].name != name
      ensures device != null ==> device in devices && device.name == name
      ensures scanning == old(scanning) + if device == null then {} else {device}
    {
      device := FindDevice(name);
      if device != null {
        assert device in devices;
        scanning := scanning + {device};
      }
    }

    method ScanDone(device: CachedDevice)
      requires Valid()
      modifies this`scanning
      ensures Valid() && View() == old(View()) && scanning == old(scanning) - {device}
    {
      scanning := scanning - {device};
    }

    /** Requests one after another. */
    method Serve(requests: seq<Request>)
      requires Valid()
      modifies this, sane, created
      ensures Valid() && View() == HandledAll(old(View()), requests)
    {
      for k := 0 to |requests|
        invariant Valid() && View() == HandledAll(old(View()), requests[..k])
        invariant old(created) <= created && fresh(created - old(created))
      {
        Answer(requests[k]);
        assert requests[..k + 1][..k] == requests[..k];
      }
      assert requests[..|requests|] == requests;
    }

    /** Which scan ends is not said: any that is in progress. */
    method Answer(request: Request)
      requires Valid()
      modifies this, sane, devices
      ensures Valid() && View() == Handled(old(View()), request)
      ensures old(created) <= created && fresh(created - old(created))
    {
      match request
      case GetScanners(now, later, listing) => var response := GetScanners(now, later, listing);
      case RefreshScanners(now, later, listing) => RefreshDevices(now, later, listing);
      case Scan(name) => var device := Scan(name);
      case ScanDone =>
        if scanning != {} {
          var device :| device in scanning;
          ScanDone(device);
        }
    }
  }
}
