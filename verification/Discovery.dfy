/** How the records of an mDNS answer are paired into addresses of servers. */
module Discovery {
  import opened Bytes

  /** The resource records `query_callback` tells apart. */
  datatype Record = Srv(port: nat) | A(address: string) | AAAA(address: string) | Other

  datatype AddressType = IPV4 | IPV6

  datatype Found = Found(address: string, port: nat, addressType: AddressType)

  /** `CPartialQueryResult` and the list of results. */
  datatype Query = Query(ipv4: Option<string>, ipv6: Option<string>, port: Option<nat>, results: seq<Found>)

  function Start(): Query {
    Query(None, None, None, [])
  }

  function SetField(q: Query, r: Record): Query {
    match r
    case Srv(port) => q.(port := Some(port))
    case A(address) => q.(ipv4 := Some(address))
    case AAAA(address) => q.(ipv6 := Some(address))
    case Other => q
  }

  /** One record; a pending IPv4 address and a pending port make a result and clear everything. */
  function Callback(q: Query, r: Record): Query {
    var set_ := SetField(q, r);
    if set_.ipv4.Some? && set_.port.Some? then
      Query(None, None, None, set_.results + [Found(set_.ipv4.value, set_.port.value, IPV4)])
    else set_
  }

  function Answered(q: Query, rs: seq<Record>): Query
    decreases |rs|
  {
    if rs == [] then q else Answered(Callback(q, rs[0]), rs[1..])
  }

  // ---- An independent account of the results ----

  predicate Relevant(r: Record) {
    r.Srv? || r.A?
  }

  predicate AllRelevant(rs: seq<Record>) {
    forall i :: 0 <= i < |rs| ==> Relevant(rs[i])
  }

  function WithoutOthers(rs: seq<Record>): seq<Record> {
    if rs == [] then [] else (if Relevant(rs[0]) then [rs[0]] else []) + WithoutOthers(rs[1..])
  }

  /** The length of the shortest prefix that holds both a port and an address; 0 if there is none. */
  function FirstPair(rs: seq<Record>): (n: nat)
    requires AllRelevant(rs)
    ensures n <= |rs|
    ensures n > 0 ==> n >= 2 && rs[n - 1].Srv? != rs[n - 2].Srv?
    ensures n > 0 ==> forall i :: 0 <= i < n - 1 ==> rs[i].Srv? == rs[0].Srv?
    ensures n == 0 ==> forall i :: 0 <= i < |rs| ==> rs[i].Srv? == rs[0].Srv?
  {
    if |rs| < 2 then 0
    else if rs[0].Srv? != rs[1].Srv? then 2
    else
      var n := FirstPair(rs[1..]);
      if n == 0 then 0 else n + 1
  }

  /** Cut at each shortest pair: the last record before the cut and the one at it give a result. */
  function Pairs(rs: seq<Record>): seq<Found>
    requires AllRelevant(rs)
    decreases |rs|
  {
    var n := FirstPair(rs);
    if n == 0 then []
    else [PairOf(rs[n - 2], rs[n - 1])] + Pairs(rs[n..])
  }

  /** The result of the two records at a cut: one is a port, the other an address. */
  function PairOf(r: Record, r': Record): Found
    requires Relevant(r) && Relevant(r') && r.Srv? != r'.Srv?
  {
    if r.Srv? then Found(r'.address, r.port, IPV4) else Found(r.address, r'.port, IPV4)
  }

  lemma {:induction false} WithoutOthersIsRelevant(rs: seq<Record>)
    ensures AllRelevant(WithoutOthers(rs))
  {
    if rs != [] {
      WithoutOthersIsRelevant(rs[1..]);
    }
  }

  /** Records of other types change nothing but the pending IPv6 address, which no result uses. */
  lemma {:induction false} OthersDoNotMatter(q: Query, q': Query, rs: seq<Record>)
    requires q.ipv4 == q'.ipv4 && q.port == q'.port && q.results == q'.results
    requires !(q.ipv4.Some? && q.port.Some?)
    ensures Answered(q, rs).results == Answered(q', WithoutOthers(rs)).results
    ensures Answered(q, rs).ipv4 == Answered(q', WithoutOthers(rs)).ipv4
    ensures Answered(q, rs).port == Answered(q', WithoutOthers(rs)).port
    decreases |rs|
  {
    if rs != [] {
      var rest := WithoutOthers(rs[1..]);
      if Relevant(rs[0]) {
        OthersDoNotMatter(Callback(q, rs[0]), Callback(q', rs[0]), rs[1..]);
        assert WithoutOthers(rs)[1..] == rest;
      } else {
        OthersDoNotMatter(Callback(q, rs[0]), q', rs[1..]);
        assert WithoutOthers(rs) == rest;
      }
    }
  }

  /** What is pending after records of one kind only: the last of them. */
  function Pending(r: Record, results: seq<Found>): Query
    requires Relevant(r)
  {
    if r.Srv? then Query(None, None, Some(r.port), results) else Query(Some(r.address), None, None, results)
  }

  lemma AnsweredFirst(q: Query, rs: seq<Record>)
    requires rs != []
    ensures Answered(q, rs) == Answered(Callback(q, rs[0]), rs[1..])
  {
  }

  lemma FirstTwoPair(rs: seq<Record>)
    requires AllRelevant(rs) && |rs| >= 2 && rs[0].Srv? != rs[1].Srv?
    ensures AllRelevant(rs[2..]) && Pairs(rs) == [PairOf(rs[0], rs[1])] + Pairs(rs[2..])
  {
    assert FirstPair(rs) == 2;
  }

  /** A record followed by one of the same kind is superseded by it. */
  lemma FirstIsSuperseded(rs: seq<Record>)
    requires AllRelevant(rs) && |rs| >= 2 && rs[0].Srv? == rs[1].Srv?
    ensures AllRelevant(rs[1..]) && Pairs(rs) == Pairs(rs[1..])
  {
    var rest := rs[1..];
    var n := FirstPair(rest);
    assert FirstPair(rs) == if n == 0 then 0 else n + 1;
    if n > 0 {
      assert rs[n + 1..] == rest[n..] && rs[n - 1] == rest[n - 2] && rs[n] == rest[n - 1];
    }
  }

  /** A record of the other kind completes the first pair. */
  lemma PairCompletes(r: Record, next: Record, results: seq<Found>)
    requires Relevant(r) && Relevant(next) && next.Srv? != r.Srv?
    ensures Callback(Pending(r, results), next) == Query(None, None, None, results + [PairOf(r, next)])
  {
  }

  lemma NoPairYet(r: Record)
    requires Relevant(r)
    ensures Pairs([r]) == []
  {
  }

  lemma {:induction false} FoldFromPending(r: Record, rs: seq<Record>, results: seq<Found>)
    requires Relevant(r) && AllRelevant(rs)
    ensures Answered(Pending(r, results), rs).results == results + Pairs([r] + rs)
    decreases |rs|
  {
    if rs == [] {
      NoPairYet(r);
      assert [r] + rs == [r];
    } else {
      AnsweredFirst(Pending(r, results), rs);
      if rs[0].Srv? != r.Srv? {
        PairCompletes(r, rs[0], results);
        FirstTwoPair([r] + rs);
        assert ([r] + rs)[2..] == rs[1..];
        FoldFromStart(rs[1..], results + [PairOf(r, rs[0])]);
        Regroup(results, PairOf(r, rs[0]), Pairs(rs[1..]));
      } else {
        RepeatSupersedes(r, rs[0], results);
        FoldFromPending(rs[0], rs[1..], results);
        FirstIsSuperseded([r] + rs);
        assert ([r] + rs)[1..] == rs && [rs[0]] + rs[1..] == rs;
      }
    }
  }

  lemma Regroup(results: seq<Found>, found: Found, more: seq<Found>)
    ensures results + [found] + more == results + ([found] + more)
  {
  }

  lemma RepeatSupersedes(r: Record, next: Record, results: seq<Found>)
    requires Relevant(r) && Relevant(next) && next.Srv? == r.Srv?
    ensures Callback(Pending(r, results), next) == Pending(next, results)
  {
  }

  lemma {:induction false} FoldFromStart(rs: seq<Record>, results: seq<Found>)
    requires AllRelevant(rs)
    ensures Answered(Query(None, None, None, results), rs).results == results + Pairs(rs)
    decreases |rs|, 1
  {
    if rs != [] {
      assert Callback(Query(None, None, None, results), rs[0]) == Pending(rs[0], results);
      FoldFromPending(rs[0], rs[1..], results);
      assert [rs[0]] + rs[1..] == rs;
    }
  }

  /**
   Over any records the results are those of cutting the SRV and A records at each first occurrence of both kinds
   and pairing the two records at the cut: the latest port with the latest address, each used once.
   */
  lemma ResultsArePairs(rs: seq<Record>)
    ensures AllRelevant(WithoutOthers(rs))
    ensures Answered(Start(), rs).results == Pairs(WithoutOthers(rs))
  {
    WithoutOthersIsRelevant(rs);
    OthersDoNotMatter(Start(), Start(), rs);
    FoldFromStart(WithoutOthers(rs), []);
    assert [] + Pairs(WithoutOthers(rs)) == Pairs(WithoutOthers(rs));
  }

  /** A port and an IPv4 address are never pending together. */
  lemma {:induction false} NeverBothPending(q: Query, rs: seq<Record>)
    requires !(q.ipv4.Some? && q.port.Some?)
    ensures !(Answered(q, rs).ipv4.Some? && Answered(q, rs).port.Some?)
    decreases |rs|
  {
    if rs != [] {
      NeverBothPending(Callback(q, rs[0]), rs[1..]);
    }
  }

  /** The two records that make a result, by their places. */
  datatype Use = Use(srv: nat, a: nat)
  {
    function First(): nat {
      if srv < a then srv else a
    }

    function Last(): nat {
      if srv < a then a else srv
    }
  }

  /** The result is made of these records, and each was the latest of its kind when the later one came. */
  predicate Makes(rs: seq<Record>, use: Use, found: Found) {
    && use.Last() < |rs| && rs[use.srv].Srv? && rs[use.a].A?
    && found == Found(rs[use.a].address, rs[use.srv].port, IPV4)
    && (forall i :: use.srv < i <= use.Last() ==> !rs[i].Srv?)
    && (forall i :: use.a < i <= use.Last() ==> !rs[i].A?)
  }

  /** Each result has its records, all behind those of the result before it. */
  predicate Uses(rs: seq<Record>, uses: seq<Use>, results: seq<Found>) {
    && |uses| == |results|
    && (forall k :: 0 <= k < |uses| ==> Makes(rs, uses[k], results[k]))
    && (forall j, k :: 0 <= j < k < |uses| ==> uses[j].Last() < uses[k].First())
  }

  /** The place after the last record used. */
  function Free(uses: seq<Use>): nat {
    if uses == [] then 0 else uses[|uses| - 1].Last() + 1
  }

  /** What is pending is the latest record of its kind among those not used, if there is one. */
  ghost predicate Waiting(rs: seq<Record>, free: nat, q: Query) {
    && (q.port.Some? ==> exists i :: free <= i < |rs| && LatestSrv(rs, i, q.port.value))
    && (q.port.None? ==> forall i :: free <= i < |rs| ==> !rs[i].Srv?)
    && (q.ipv4.Some? ==> exists i :: free <= i < |rs| && LatestA(rs, i, q.ipv4.value))
    && (q.ipv4.None? ==> forall i :: free <= i < |rs| ==> !rs[i].A?)
    && (q.ipv6.Some? ==> exists i :: free <= i < |rs| && LatestAAAA(rs, i, q.ipv6.value))
    && (q.ipv6.None? ==> forall i :: free <= i < |rs| ==> !rs[i].AAAA?)
  }

  predicate LatestSrv(rs: seq<Record>, i: nat, port: nat)
    requires i < |rs|
  {
    rs[i] == Srv(port) && forall j :: i < j < |rs| ==> !rs[j].Srv?
  }

  predicate LatestA(rs: seq<Record>, i: nat, address: string)
    requires i < |rs|
  {
    rs[i] == A(address) && forall j :: i < j < |rs| ==> !rs[j].A?
  }

  predicate LatestAAAA(rs: seq<Record>, i: nat, address: string)
    requires i < |rs|
  {
    rs[i] == AAAA(address) && forall j :: i < j < |rs| ==> !rs[j].AAAA?
  }

  lemma {:induction false} AnsweredLast(q: Query, rs: seq<Record>, r: Record)
    ensures Answered(q, rs + [r]) == Callback(Answered(q, rs), r)
    decreases |rs|
  {
    if rs == [] {
      assert ([] + [r])[1..] == [] && rs + [r] == [r];
    } else {
      assert (rs + [r])[1..] == rs[1..] + [r];
      AnsweredLast(Callback(q, rs[0]), rs[1..], r);
    }
  }

  lemma UsesStay(rs: seq<Record>, r: Record, uses: seq<Use>, results: seq<Found>)
    requires Uses(rs, uses, results)
    ensures Uses(rs + [r], uses, results) && Free(uses) <= |rs|
  {
    forall k | 0 <= k < |uses| ensures Makes(rs + [r], uses[k], results[k]) {
      assert Makes(rs, uses[k], results[k]);
    }
  }

  lemma UsesGrow(rs: seq<Record>, uses: seq<Use>, results: seq<Found>, use: Use, found: Found)
    requires Uses(rs, uses, results) && Makes(rs, use, found) && Free(uses) <= use.First()
    ensures Uses(rs, uses + [use], results + [found])
  {
    var more := uses + [use];
    forall k | 0 <= k < |more| ensures Makes(rs, more[k], (results + [found])[k]) {
    }
    forall j, k | 0 <= j < k < |more| ensures more[j].Last() < more[k].First() {
      if k == |uses| && j < k - 1 {
        assert uses[j].Last() < uses[k - 1].First();
      }
    }
  }

  /** A record that completes no result: it is what now waits, or nothing changes. */
  lemma WaitsOn(rs: seq<Record>, r: Record, free: nat, q: Query)
    requires Waiting(rs, free, q) && free <= |rs| && Callback(q, r) == SetField(q, r)
    ensures Waiting(rs + [r], free, Callback(q, r))
  {
    var more, n := rs + [r], |rs|;
    assert more[n] == r && forall i :: 0 <= i < n ==> more[i] == rs[i];
    if r.Srv? {
      assert LatestSrv(more, n, r.port);
    } else if q.port.Some? {
      var i :| free <= i < n && LatestSrv(rs, i, q.port.value);
      assert LatestSrv(more, i, q.port.value);
    }
    if r.A? {
      assert LatestA(more, n, r.address);
    } else if q.ipv4.Some? {
      var i :| free <= i < n && LatestA(rs, i, q.ipv4.value);
      assert LatestA(more, i, q.ipv4.value);
    }
    if r.AAAA? {
      assert LatestAAAA(more, n, r.address);
    } else if q.ipv6.Some? {
      var i :| free <= i < n && LatestAAAA(rs, i, q.ipv6.value);
      assert LatestAAAA(more, i, q.ipv6.value);
    }
  }

  /** A record that completes a result is used at once, with the one that waited. */
  lemma Completes(rs: seq<Record>, r: Record, free: nat, q: Query) returns (use: Use, found: Found)
    requires Waiting(rs, free, q) && free <= |rs| && !(q.ipv4.Some? && q.port.Some?)
    requires Callback(q, r) != SetField(q, r)
    ensures Makes(rs + [r], use, found) && free <= use.First() && use.Last() == |rs|
    ensures Callback(q, r) == Query(None, None, None, q.results + [found])
  {
    var more, n := rs + [r], |rs|;
    assert more[n] == r && forall i :: 0 <= i < n ==> more[i] == rs[i];
    if r.Srv? {
      var i :| free <= i < n && LatestA(rs, i, q.ipv4.value);
      use := Use(n, i);
    } else {
      var i :| free <= i < n && LatestSrv(rs, i, q.port.value);
      use := Use(i, n);
    }
    found := Found(more[use.a].address, more[use.srv].port, IPV4);
  }

  /** What is known of the results of some records: which made them, and what waits. */
  ghost predicate Accounted(rs: seq<Record>, q: Query, uses: seq<Use>) {
    Uses(rs, uses, q.results) && Free(uses) <= |rs| && Waiting(rs, Free(uses), q)
  }

  lemma NextAccounted(rs: seq<Record>, r: Record, q: Query, uses: seq<Use>) returns (uses': seq<Use>)
    requires Accounted(rs, q, uses) && !(q.ipv4.Some? && q.port.Some?)
    ensures Accounted(rs + [r], Callback(q, r), uses')
  {
    UsesStay(rs, r, uses, q.results);
    if Callback(q, r) == SetField(q, r) {
      WaitsOn(rs, r, Free(uses), q);
      uses' := uses;
    } else {
      var use, found := Completes(rs, r, Free(uses), q);
      UsesGrow(rs + [r], uses, q.results, use, found);
      uses' := uses + [use];
    }
  }

  lemma {:induction false} RecordsOfResults(rs: seq<Record>) returns (uses: seq<Use>)
    ensures Accounted(rs, Answered(Start(), rs), uses)
  {
    if rs == [] {
      uses := [];
    } else {
      var before, r := rs[..|rs| - 1], rs[|rs| - 1];
      uses := RecordsOfResults(before);
      NeverBothPending(Start(), before);
      uses := NextAccounted(before, r, Answered(Start(), before), uses);
      AnsweredLast(Start(), before, r);
      assert rs == before + [r];
    }
  }

  /**
   Over any records, each result is made of one SRV and one A record, each the latest of its kind at that moment,
   and no record makes two results: those of a later result come after those of an earlier one.
   */
  lemma EachRecordUsedOnce(rs: seq<Record>) returns (uses: seq<Use>)
    ensures Uses(rs, uses, Answered(Start(), rs).results)
    ensures forall j, k :: 0 <= j < |uses| && 0 <= k < |uses| ==>
              (uses[j].srv == uses[k].srv || uses[j].a == uses[k].a ==> j == k)
  {
    uses := RecordsOfResults(rs);
    forall j, k | 0 <= j < k < |uses| ensures uses[j].srv < uses[k].srv && uses[j].a < uses[k].a {
      assert uses[j].Last() < uses[k].First();
    }
  }

  /** No more results than SRV records, and no more than A records. */
  lemma {:induction false} PairsAreFew(rs: seq<Record>)
    requires AllRelevant(rs)
    ensures |Pairs(rs)| <= CountSrv(rs) && |Pairs(rs)| <= |rs| - CountSrv(rs)
    decreases |rs|
  {
    var n := FirstPair(rs);
    if n > 0 {
      PairsAreFew(rs[n..]);
      CountSrvSplit(rs, n);
      PairHoldsBoth(rs[..n]);
    }
  }

  /** Records of which the last two differ in kind. */
  lemma PairHoldsBoth(rs: seq<Record>)
    requires |rs| >= 2 && rs[|rs| - 1].Srv? != rs[|rs| - 2].Srv?
    ensures 1 <= CountSrv(rs) < |rs|
  {
    var n := |rs|;
    CountSrvSplit(rs, n - 2);
    assert rs[n - 2..] == [rs[n - 2], rs[n - 1]];
    assert [rs[n - 2], rs[n - 1]][1..] == [rs[n - 1]] && [rs[n - 1]][1..] == [];
  }

  function CountSrv(rs: seq<Record>): (n: nat)
    ensures n <= |rs|
  {
    if rs == [] then 0 else (if rs[0].Srv? then 1 else 0) + CountSrv(rs[1..])
  }

  lemma {:induction false} CountSrvSplit(rs: seq<Record>, n: nat)
    requires n <= |rs|
    ensures CountSrv(rs) == CountSrv(rs[..n]) + CountSrv(rs[n..])
  {
    if n > 0 {
      CountSrvSplit(rs[1..], n - 1);
      assert rs[..n][1..] == rs[1..][..n - 1] && rs[1..][n - 1..] == rs[n..];
    } else {
      assert rs[..0] == [] && rs[0..] == rs;
    }
  }

  /** `CMDns`, as far as one query's answers go. */
  class CMDns {
    var ipv4: Option<string>
    var ipv6: Option<string>
    var port: Option<nat>
    var results: seq<Found>

    constructor ()
      ensures View() == Start()
    {
      ipv4, ipv6, port, results := None, None, None, [];
    }

    ghost function View(): Query
      reads this
    {
      Query(ipv4, ipv6, port, results)
    }

    method BuildIpv4() returns (result: Option<Found>)
      modifies this`ipv4, this`ipv6, this`port
      ensures if old(ipv4).Some? && old(port).Some?
              then result == Some(Found(old(ipv4).value, old(port).value, IPV4))
                   && ipv4.None? && ipv6.None? && port.None?
              else result == None && ipv4 == old(ipv4) && ipv6 == old(ipv6) && port == old(port)
    {
      if ipv4.None? {
        return None;
      }
      if port.None? {
        return None;
      }
      result := Some(Found(ipv4.value, port.value, IPV4));
      ipv4, ipv6, port := None, None, None;
    }

    method QueryCallback(r: Record)
      modifies this
      ensures View() == Callback(old(View()), r)
    {
      if r.Srv? {
        port := Some(r.port);
      } else if r.A? {
        ipv4 := Some(r.address);
      } else if r.AAAA? {
        ipv6 := Some(r.address);
      }
      var result := BuildIpv4();
      if result.Some? {
        results := results + [result.value];
      }
    }
  }
}
