/** The bookkeeping of DNS requests: circular lists of requests in flight, hashed by transaction id, the list of those
    that wait, and the ring of nameservers. */
module DnsRequests {
  import opened Basics

  const NO_ID: nat := 0xffff

  class Nameserver {
    var next: Nameserver?
    var up: bool
    // The socket takes nothing at present; when it does again, `NameserverReady` is called.
    var choked: bool

    constructor ()
      ensures next == null && !up && !choked
    {
      next, up, choked := null, false, false;
    }
  }

  class Request {
    var next: Request?
    var prev: Request?
    var transId: nat
    var ns: Nameserver?
    var txCount: nat
    var reissueCount: nat
    var transmitMe: bool
    // The timeout of the last transmission is pending.
    var timer: bool

    constructor (transId: nat, ns: Nameserver?)
      ensures next == null && prev == null && this.transId == transId && this.ns == ns && txCount == 0
      ensures reissueCount == 0 && !transmitMe && !timer
    {
      next, prev, timer := null, null, false;
      this.transId, this.ns, txCount, reissueCount, transmitMe := transId, ns, 0, 0, false;
    }
  }

  function Succ(n: nat, i: nat): nat {
    if i + 1 >= n then 0 else i + 1
  }

  function Pred(n: nat, i: nat): int {
    if i == 0 then n - 1 else i - 1
  }

  /** The i-th request of a circular list points to its neighbours. */
  ghost predicate LinkedAt(s: seq<Request>, i: int)
    reads s`next, s`prev
  {
    0 <= i < |s| ==> s[i].next == s[Succ(|s|, i)] && s[i].prev == s[Pred(|s|, i)]
  }

  /** A doubly linked circular list with the given head. */
  ghost predicate Ring(s: seq<Request>, head: Request?)
    reads s`next, s`prev
  {
    && head == (if s == [] then null else s[0])
    && Distinct(s)
    && forall i :: LinkedAt(s, i)
  }

  /** Appends a request to the list whose head is given, and returns the head. */
  method RequestInsert(req: Request, head: Request?, ghost s: seq<Request>) returns (h: Request?)
    requires Ring(s, head) && req !in s
    modifies req`next, req`prev, s`next, s`prev
    ensures Ring(s + [req], h)
  {
    ghost var t := s + [req];
    if head == null {
      req.next, req.prev := req, req;
      return req;
    }
    assert LinkedAt(s, 0) && LinkedAt(s, |s| - 1);
    req.prev := head.prev;
    req.prev.next := req;
    req.next := head;
    head.prev := req;
    h := head;
    forall i ensures LinkedAt(t, i) {
      assert old(LinkedAt(s, i));
    }
  }

  /** The list without its k-th element. */
  ghost function Cut(s: seq<Request>, k: nat): seq<Request>
    requires k < |s|
  {
    s[..k] + s[k + 1..]
  }

  lemma CutFacts(s: seq<Request>, k: nat, head: Request?)
    requires Ring(s, head) && k < |s|
    ensures |Cut(s, k)| == |s| - 1 && forall i | 0 <= i < |s| - 1 :: Cut(s, k)[i] == s[if i < k then i else i + 1]
    ensures forall i | 0 <= i < |s| && i != k :: s[i] != s[k]
    ensures forall r :: r in Cut(s, k) <==> r in s && r != s[k]
  {
    forall r ensures r in Cut(s, k) <==> r in s && r != s[k] {
      if r in s && r != s[k] {
        var i :| 0 <= i < |s| && s[i] == r;
        assert Cut(s, k)[if i < k then i else i - 1] == r;
      }
    }
  }

  /** Takes the k-th request off the list whose head is given, and returns the head. */
  method RequestRemove(req: Request, head: Request?, ghost s: seq<Request>, ghost k: nat) returns (h: Request?)
    requires Ring(s, head) && k < |s| && s[k] == req
    modifies s`next, s`prev
    ensures Ring(Cut(s, k), h)
    ensures req.next == null && req.prev == null
  {
    ghost var t := Cut(s, k);
    assert LinkedAt(s, k);
    h := head;
    if req.next == req {
      h := null;
    } else {
      req.next.prev := req.prev;
      req.prev.next := req.next;
      if h == req { h := req.next; }
    }
    req.next, req.prev := null, null;
    forall i ensures LinkedAt(t, i) {
      if 0 <= i < |t| {
        var n, j := |s|, if i < k then i else i + 1;
        assert old(LinkedAt(s, j));
        assert t[i] == s[j];
        assert t[Succ(n - 1, i)] == s[if Succ(n, j) == k then Succ(n, k) else Succ(n, j)];
        assert t[Pred(n - 1, i)] == s[if Pred(n, j) == k then Pred(n, k) else Pred(n, j)];
      }
    }
  }

  ghost predicate ServerRing(s: seq<Nameserver>, head: Nameserver?)
    reads s`next
  {
    && head == (if s == [] then null else s[0])
    && Distinct(s)
    && forall i | 0 <= i < |s| :: s[i].next == s[Succ(|s|, i)]
  }

  ghost function Up(s: set<Nameserver>): set<Nameserver>
    reads s`up
  {
    set n | n in s && n.up
  }

  /** The list as it is when it starts with its k-th element. */
  ghost function Rotated<T>(s: seq<T>, k: nat): seq<T>
    requires k <= |s|
  {
    s[k..] + s[..k]
  }

  ghost function Elements<T>(s: seq<T>): set<T> {
    set x | x in s
  }

  function Shifted(n: nat, k: nat, i: nat): int {
    if i + k < n then i + k else i + k - n
  }

  lemma RotatedIndex<T>(s: seq<T>, k: nat)
    requires k < |s|
    ensures |Rotated(s, k)| == |s| && Rotated(s, k)[0] == s[k] && Rotated(s, 0) == s
    ensures forall i | 0 <= i < |s| :: 0 <= Shifted(|s|, k, i) < |s| && Rotated(s, k)[i] == s[Shifted(|s|, k, i)]
  {
  }

  lemma RotatedFirst<T>(s: seq<T>, k: nat)
    requires k < |s|
    ensures |Rotated(s, k)| == |s| && Rotated(s, k)[0] == s[k] && Rotated(s, 0) == s
  {
  }

  lemma RotatedElements<T>(s: seq<T>, k: nat)
    requires k < |s|
    ensures Elements(Rotated(s, k)) == Elements(s)
  {
    assert s == s[..k] + s[k..];
  }

  lemma RotatedRing(s: seq<Nameserver>, head: Nameserver?, k: nat, h: Nameserver?)
    requires ServerRing(s, head) && k < |s| && h == s[k]
    ensures ServerRing(Rotated(s, k), h) && Elements(Rotated(s, k)) == Elements(s)
  {
    hide Rotated, Elements, Distinct;
    RotatedIndex(s, k);
    RotatedElements(s, k);
    RotatedDistinct(s, k);
    var t := Rotated(s, k);
    forall i | 0 <= i < |t| ensures t[i].next == t[Succ(|t|, i)] {
      assert s[Shifted(|s|, k, i)].next == s[Succ(|s|, Shifted(|s|, k, i))];
      ShiftedSucc(|s|, k, i);
    }
  }

  lemma ShiftedSucc(n: nat, k: nat, i: nat)
    requires k < n && i < n
    ensures Succ(n, Shifted(n, k, i)) == Shifted(n, k, Succ(n, i))
  {
  }

  lemma RotatedDistinct<T>(s: seq<T>, k: nat)
    requires Distinct(s) && k < |s|
    ensures Distinct(Rotated(s, k))
  {
    hide Rotated;
    RotatedIndex(s, k);
    var t := Rotated(s, k);
    forall i, j | 0 <= i < j < |t| ensures t[i] != t[j] {
      assert s[Shifted(|s|, k, i)] != s[Shifted(|s|, k, j)];
    }
  }

  /** The first good nameserver of a list, or its length. */
  ghost function NextUp(s: seq<Nameserver>): nat
    reads s`up
  {
    if s == [] || s[0].up then 0 else NextUp(s[1..]) + 1
  }

  lemma {:induction false} NextUpIs(s: seq<Nameserver>, k: nat)
    requires k < |s| && s[k].up && forall i | 0 <= i < k :: !s[i].up
    ensures NextUp(s) == k
  {
    if k > 0 { NextUpIs(s[1..], k - 1); }
  }

  method ServerInsert(ns: Nameserver, head: Nameserver?, ghost s: seq<Nameserver>)
    returns (h: Nameserver, ghost t: seq<Nameserver>)
    requires ServerRing(s, head) && ns !in s
    modifies ns`next, Elements(s)`next
    ensures ServerRing(t, h) && Elements(t) == Elements(s) + {ns}
  {
    if head == null {
      ns.next := ns;
      return ns, [ns];
    }
    ns.next := head.next;
    head.next := ns;
    h, t := head, [s[0], ns] + s[1..];
  }

  datatype Op =
    | New(tries: nat)
    | Finish(tries: nat)
    | Timeout(maxRetransmits: nat, bad: bool, tries: nat)
    | Reissue
    | SetMax(max: int)
    | Suspend
    | Resume(tries: nat)
    | AddNameserver
    | Fail
    | Recover
    | Writable

  /** What becomes of a packet: the socket takes nothing for now, it fails for good, or the packet goes out. */
  datatype Outcome = FailsForNow | FailsForGood | Goes

  /** Some requests in lists, of which list b becomes another one. */
  datatype Relisting = Relisting(
    lists: seq<seq<Request>>, hs: seq<Request?>, some: set<Request>, b: nat, list: seq<Request>, h: Request?,
      now: set<Request>)

  datatype Flier = Flier(r: Request, b: nat)

  class DnsBase {
    var heads: seq<Request?>
    var waitingHead: Request?
    var inflight: int
    var waiting: int
    var maxInflight: int
    var serverHead: Nameserver?
    var good: int
    // The lists as sequences, all requests in them, and the ring of nameservers from serverHead on.
    ghost var buckets: seq<seq<Request>>
    ghost var queue: seq<Request>
    ghost var nodes: set<Request>
    ghost var servers: seq<Nameserver>

    /** The ring of nameservers, and the number of those that are thought to be good. */
    ghost predicate ServersOk()
      reads this, servers
    {
      ServerRing(servers, serverHead) && good == |Up(Elements(servers))|
    }

    /** The requests of bucket b are in flight, and their transaction ids belong there. */
    ghost predicate BucketOk(b: int)
      reads this, nodes
    {
      0 <= b < |buckets| && |heads| == |buckets| ==>
        && (forall i | 0 <= i < |buckets[b]| :: Flying(buckets[b][i], b))
        && Ring(buckets[b], heads[b])
    }

    ghost predicate Flying(r: Request, b: int)
      reads this, nodes
    {
      r in nodes && r.ns != null && r.ns in servers && r.transId < NO_ID && |buckets| > 0 && r.transId % |buckets| == b
    }

    /** The requests in the queue wait for a nameserver. */
    ghost predicate QueueOk()
      reads this, nodes
    {
      && (forall i | 0 <= i < |queue| :: queue[i] in nodes && queue[i].ns == null)
      && Ring(queue, waitingHead)
    }

    /** Every request is either in flight or in the queue. */
    ghost predicate Listed(r: Request)
      reads this, nodes
    {
      r in nodes && |buckets| > 0 ==> if r.ns == null then r in queue else r in buckets[r.transId % |buckets|]
    }

    ghost predicate CountsOk()
      reads this
    {
      inflight == Lengths(buckets) && waiting == |queue|
    }

    ghost predicate Valid()
      reads this, nodes, servers
    {
      && 0 < |buckets| == |heads| && CountsOk() && ServersOk() && QueueOk()
      && (forall b :: BucketOk(b))
      && (forall r <- nodes :: Listed(r))
    }

    lemma ValidParts()
      requires Valid()
      ensures 0 < |buckets| == |heads| && CountsOk() && ServersOk() && QueueOk()
      ensures (forall b :: BucketOk(b)) && (forall r <- nodes :: Listed(r))
    {
    }

    lemma MakeValid()
      requires 0 < |buckets| == |heads| && CountsOk() && ServersOk() && QueueOk()
      requires (forall b :: BucketOk(b)) && (forall r <- nodes :: Listed(r))
      ensures Valid()
    {
    }

    method SetBucket(b: nat, h: Request?, ghost s: seq<Request>, ghost some: set<Request>, n: int)
      requires b < |heads| == |buckets|
      modifies this`heads, this`inflight, this`buckets, this`nodes
      ensures heads == old(heads)[b := h] && buckets == old(buckets)[b := s] && nodes == some && inflight == n
    {
      heads := heads[b := h];
      buckets := buckets[b := s];
      nodes := some;
      inflight := n;
    }

    lemma BucketRing(b: nat)
      requires BucketOk(b) && b < |buckets| == |heads|
      ensures Ring(buckets[b], heads[b]) && forall r <- buckets[b] :: r in nodes && r.ns != null
    {
      hide Ring;
      forall r | r in buckets[b] ensures r in nodes && r.ns != null {
        var i :| 0 <= i < |buckets[b]| && buckets[b][i] == r;
        assert Flying(buckets[b][i], b);
      }
    }

    /** Bucket b may gain or lose a request; the others in it still belong there. */
    twostate lemma BucketRelinked(x: Flier)
      requires old(|heads| == |buckets| > 0 && x.b < |buckets| && (forall c :: BucketOk(c)))
      requires |heads| == |buckets| == |old(buckets)| && servers == old(servers) && Ring(buckets[x.b], heads[x.b])
      requires forall r | r in buckets[x.b] :: r in nodes && (r in old(buckets[x.b]) || (r == x.r && Flying(r, x.b)))
      requires forall r | r in old(nodes) :: r.ns == old(r.ns) && r.transId == old(r.transId)
      ensures BucketOk(x.b)
    {
      hide Ring;
      assert old(BucketOk(x.b));
      forall i | 0 <= i < |buckets[x.b]| ensures Flying(buckets[x.b][i], x.b) {
        var r := buckets[x.b][i];
        if r in old(buckets[x.b]) {
          var j :| 0 <= j < |old(buckets[x.b])| && old(buckets[x.b])[j] == r;
          assert old(Flying(buckets[x.b][j], x.b));
        }
      }
    }

    /** When only bucket b has been relinked, the other buckets are as they were. */
    twostate lemma BucketsKept(b: nat)
      requires old(|heads| == |buckets| && (forall c :: BucketOk(c))) && |heads| == |buckets| == |old(buckets)|
      requires b < |buckets| && BucketOk(b) && servers == old(servers)
      requires forall c | 0 <= c < |buckets| && c != b :: buckets[c] == old(buckets[c]) && heads[c] == old(heads[c])
      requires forall r | r in old(nodes) && r !in old(buckets[b]) :: r in nodes && unchanged(r)
      ensures forall c :: BucketOk(c)
    {
      hide Ring;
      forall c ensures BucketOk(c) {
        assert old(BucketOk(c)) && old(BucketOk(b));
        if 0 <= c < |buckets| && c != b {
          forall i | 0 <= i < |buckets[c]| ensures Flying(buckets[c][i], c) && buckets[c][i] !in old(buckets[b]) {
            assert old(Flying(buckets[c][i], c));
            assert forall j | 0 <= j < |old(buckets[b])| :: old(Flying(buckets[b][j], b));
          }
        }
      }
    }

    /** When only the queue has been relinked, the buckets are as they were. */
    twostate lemma BucketsSame()
      requires old(forall c :: BucketOk(c)) && heads == old(heads) && buckets == old(buckets) && servers == old(servers)
      requires forall r | r in old(nodes) && old(r.ns) != null :: r in nodes && unchanged(r)
      ensures forall c :: BucketOk(c)
    {
      hide Ring;
      forall c ensures BucketOk(c) {
        assert old(BucketOk(c));
        if 0 <= c < |buckets| && |heads| == |buckets| {
          forall i | 0 <= i < |buckets[c]| ensures Flying(buckets[c][i], c) { assert old(Flying(buckets[c][i], c)); }
        }
      }
    }

    /** Puts a request that has a nameserver into its bucket. */
    method LinkInflight(req: Request)
      requires Valid() && req !in nodes && req.ns != null && req.ns in servers && req.transId < NO_ID
      modifies this`heads, this`inflight, this`buckets, this`nodes, req`next, req`prev, nodes`next, nodes`prev
      ensures Valid() && nodes == old(nodes) + {req}
      ensures |buckets| == |old(buckets)| && var b := req.transId % |buckets|;
        buckets == old(buckets)[b := old(buckets)[b] + [req]]
      ensures inflight == old(inflight) + 1
    {
      hide Valid, Ring, Lengths, ServerRing, Up, BucketOk, LinkedAt;
      ValidParts();
      var b := req.transId % |heads|;
      ghost var s := buckets[b];
      BucketRing(b);
      assert QueueOk();
      LengthsUpdate(buckets, b, s + [req]);
      var h := RequestInsert(req, heads[b], s);
      SetBucket(b, h, s + [req], nodes + {req}, inflight + 1);
      assert QueueOk() && ServersOk() by { assert old(QueueOk() && ServersOk()); }
      forall r | r in nodes ensures Listed(r) { assert r != req ==> old(Listed(r)); }
      BucketRelinked(Flier(req, b));
      BucketsKept(b);
      MakeValid();
    }

    /** Takes a request, the k-th of its bucket, out of flight. */
    method UnlinkInflight(req: Request, ghost k: nat)
      requires Valid() && req in nodes && req.ns != null
      requires k < |buckets[req.transId % |buckets|]| && buckets[req.transId % |buckets|][k] == req
      modifies this`heads, this`inflight, this`buckets, this`nodes, nodes`next, nodes`prev
      ensures Valid() && nodes == old(nodes) - {req}
      ensures |buckets| == |old(buckets)|
      ensures var b := req.transId % |buckets|; buckets == old(buckets)[b := Cut(old(buckets)[b], k)]
      ensures inflight == old(inflight) - 1
    {
      hide Valid, Ring, Lengths, ServerRing, Up, Cut, BucketOk, Flying, LinkedAt;
      ValidParts();
      var b := req.transId % |heads|;
      ghost var s := buckets[b];
      BucketRing(b);
      assert QueueOk();
      CutFacts(s, k, heads[b]);
      LengthsUpdate(buckets, b, Cut(s, k));
      var h := RequestRemove(req, heads[b], s, k);
      SetBucket(b, h, Cut(s, k), nodes - {req}, inflight - 1);
      assert QueueOk() && ServersOk() by { assert old(QueueOk() && ServersOk()); }
      forall r | r in nodes ensures Listed(r) {
        hide QueueOk, ServersOk, BucketOk, CountsOk;
        assert old(Listed(r));
      }
      BucketRelinked(Flier(req, b));
      BucketsKept(b);
      MakeValid();
    }

    method SetQueue(h: Request?, ghost s: seq<Request>, ghost some: set<Request>, n: int)
      modifies this`waitingHead, this`waiting, this`queue, this`nodes
      ensures waitingHead == h && queue == s && nodes == some && waiting == n
    {
      waitingHead, queue, nodes, waiting := h, s, some, n;
    }

    /** Puts a request without a nameserver at the end of the queue. */
    method Enqueue(req: Request)
      requires Valid() && req !in nodes && req.ns == null
      modifies this`waitingHead, this`waiting, this`queue, this`nodes, req`next, req`prev, nodes`next, nodes`prev
      ensures Valid() && nodes == old(nodes) + {req} && queue == old(queue) + [req]
    {
      hide Valid, Ring, Lengths, ServerRing, Up, BucketOk;
      ValidParts();
      assert QueueOk();
      var h := RequestInsert(req, waitingHead, queue);
      SetQueue(h, queue + [req], nodes + {req}, waiting + 1);
      BucketsSame();
      forall r | r in nodes ensures Listed(r) { assert r != req ==> old(Listed(r)); }
      MakeValid();
    }

    /** Takes a request, the k-th of the queue, out of it. */
    method UnlinkWaiting(req: Request, ghost k: nat)
      requires Valid() && k < |queue| && queue[k] == req
      modifies this`waitingHead, this`waiting, this`queue, this`nodes, nodes`next, nodes`prev
      ensures Valid() && nodes == old(nodes) - {req} && queue == Cut(old(queue), k) && waiting == old(waiting) - 1
    {
      hide Valid, Ring, Lengths, ServerRing, Up, Cut, BucketOk;
      ValidParts();
      assert QueueOk();
      CutFacts(queue, k, waitingHead);
      var h := RequestRemove(req, waitingHead, queue, k);
      SetQueue(h, Cut(queue, k), nodes - {req}, waiting - 1);
      BucketsSame();
      forall r | r in nodes ensures Listed(r) { assert old(Listed(r)); }
      MakeValid();
    }

    /** Chooses a nameserver for a request: the next good one, the k-th from here, or just the next if none is good. */
    method NameserverPick() returns (ns: Nameserver?, ghost k: nat)
      requires ServersOk()
      modifies this`serverHead, this`servers
      ensures ServersOk() && Elements(servers) == old(Elements(servers)) && |servers| == |old(servers)|
      ensures ns == null <==> servers == []
      ensures ns != null ==> ns in servers && k < |servers|
      ensures ns != null && good > 0 ==> ns == old(servers)[k] && ns.up && forall i | 0 <= i < k :: !old(servers)[i].up
      ensures ns != null && good == 0 ==> ns == servers[0] && k == 0
      ensures ns != null ==> servers == Rotated(old(servers), Succ(|servers|, k))
    {
      hide Rotated, ServersOk, Elements;
      k := 0;
      ghost var s := servers;
      HeadIs();
      if serverHead == null { return null, 0; }
      RotatedFirst(s, 0);
      RotatedFirst(s, Succ(|s|, 0));
      if good == 0 {
        RotateServers();
        HeadIs();
        return serverHead, 0;
      }
      SomeUp();
      while true
        invariant k < |s| && servers == Rotated(s, k) && ServersOk() && Elements(servers) == Elements(s)
        invariant forall i | 0 <= i < k :: !s[i].up
        decreases |s| - k
      {
        HeadIs();
        RotatedFirst(s, k);
        RotatedNext(s, k);
        RotatedFirst(s, Succ(|s|, k));
        ElementsIn(s, k);
        if serverHead.up {
          ns := serverHead;
          RotateServers();
          ElementsSame(servers, s);
          return;
        }
        RotateServers();
        k := k + 1;
      }
    }

    /** The nameserver that is chosen next: the first good one, or just the second one if none is good. */
    ghost function Picked(): Nameserver?
      reads this`servers, this`good, servers`up
    {
      if servers == [] then null
      else if good == 0 then servers[Succ(|servers|, 0)]
      else if NextUp(servers) < |servers| then servers[NextUp(servers)] else null
    }

    /** Choosing a nameserver leaves the requests alone. */
    method Pick() returns (ns: Nameserver?)
      requires Valid()
      modifies this`serverHead, this`servers
      ensures Valid() && Elements(servers) == old(Elements(servers))
      ensures ns == null <==> servers == []
      ensures ns != null ==> ns in servers && (good > 0 ==> ns.up)
      ensures ChokedStay()
      ensures |servers| == |old(servers)|
      ensures ns == old(Picked())
    {
      hide Ring, Lengths, ServerRing, Up, Rotated, Elements;
      ghost var k;
      PickedNext();
      ns, k := NameserverPick();
      ElementsSame(servers, old(servers));
      forall c ensures BucketOk(c) {
        assert old(BucketOk(c));
        if 0 <= c < |buckets| {
          forall i | 0 <= i < |buckets[c]| ensures Flying(buckets[c][i], c) { assert old(Flying(buckets[c][i], c)); }
        }
      }
      forall r | r in nodes ensures Listed(r) { assert old(Listed(r)); }
    }

    lemma PickedNext()
      requires ServersOk()
      ensures servers == [] ==> Picked() == null
      ensures servers != [] && good == 0 ==> Picked() == Rotated(servers, Succ(|servers|, 0))[0]
      ensures good != 0 ==> forall k | 0 <= k < |servers| && servers[k].up && forall i | 0 <= i < k :: !servers[i].up ::
        Picked() == servers[k]
    {
      forall k | 0 <= k < |servers| && servers[k].up && forall i | 0 <= i < k :: !servers[i].up
        ensures NextUp(servers) == k
      {
        NextUpIs(servers, k);
      }
    }

    /** Gives a request in flight to another nameserver. */
    method SetNs(req: Request, ns: Nameserver)
      requires Valid() && req in nodes && req.ns != null && ns in servers
      modifies req`ns
      ensures Valid() && req.ns == ns
    {
      hide Ring, Lengths, ServerRing, Up;
      req.ns := ns;
      forall c ensures BucketOk(c) { assert old(BucketOk(c)); }
      forall r | r in nodes ensures Listed(r) { assert old(Listed(r)); }
      assert QueueOk() by { assert old(QueueOk()); }
    }

    /** The request waits to go out to `ns`. */
    ghost predicate Unsent(r: Request, ns: Nameserver)
      reads r
    {
      r.txCount == 0 && r.ns == ns
    }

    /** Gives the requests of bucket b that wait to go out to `ns` to other nameservers. */
    method MoveUnsent(b: nat, ns: Nameserver)
      requires Valid() && b < |buckets| && good > 0 && !ns.up
      modifies this`serverHead, this`servers, nodes`ns
      ensures Valid() && Elements(servers) == old(Elements(servers))
      ensures forall r <- nodes :: r.ns == old(r.ns) || (old(r.ns) == ns && r.txCount == 0 && r.ns != null && r.ns.up)
      ensures forall r <- buckets[b] :: !Unsent(r, ns)
      ensures ChokedStay()
    {
      hide Valid, Ring, Elements;
      ghost var s := buckets[b];
      BucketStart(b);
      var req := heads[b];
      ghost var k := 0;
      if req == null { return; }
      while true
        invariant Valid() && k < |s| && buckets[b] == s && req == s[k] && Elements(servers) == old(Elements(servers))
        invariant ChokedStay()
        invariant forall r <- nodes ::
          r.ns == old(r.ns) || (old(r.ns) == ns && r.txCount == 0 && r.ns != null && r.ns.up)
        invariant forall i | 0 <= i < k :: !Unsent(s[i], ns)
        decreases |s| - k
      {
        BucketNext(b, k);
        if req.txCount == 0 && req.ns == ns {
          var other := Pick();
          SomeServer();
          SetNs(req, other);
        }
        BucketNext(b, k);
        req := req.next;
        if req == heads[b] { break; }
        k := k + 1;
      }
    }

    lemma BucketStart(b: nat)
      requires Valid() && b < |buckets|
      ensures |heads| == |buckets| && heads[b] == (if buckets[b] == [] then null else buckets[b][0])
    {
      assert BucketOk(b);
    }

    lemma BucketNext(b: nat, k: nat)
      requires Valid() && b < |buckets| && k < |buckets[b]|
      ensures |heads| == |buckets| && heads[b] == buckets[b][0]
      ensures Flying(buckets[b][k], b) && buckets[b][k].next == buckets[b][Succ(|buckets[b]|, k)]
      ensures forall i, j | 0 <= i < j < |buckets[b]| :: buckets[b][i] != buckets[b][j]
    {
      assert BucketOk(b);
      assert LinkedAt(buckets[b], k);
    }

    lemma SomeServer()
      requires Valid() && good > 0
      ensures servers != []
    {
    }

    method PutUp(ns: Nameserver, up: bool, n: int)
      modifies this`good, ns`up
      ensures ns.up == up && good == n
    {
      ns.up, good := up, n;
    }

    method SetUp(ns: Nameserver, up: bool)
      requires Valid() && ns in servers && ns.up != up
      modifies this`good, ns`up
      ensures Valid() && ns.up == up && good == old(good) + (if up then 1 else -1)
    {
      hide Ring, Lengths, ServerRing;
      ghost var were := Up(Elements(servers));
      PutUp(ns, up, if up then good + 1 else good - 1);
      assert Up(Elements(servers)) == if up then were + {ns} else were - {ns};
      forall c ensures BucketOk(c) { assert old(BucketOk(c)); }
      forall r | r in nodes ensures Listed(r) { assert old(Listed(r)); }
    }

    /** A nameserver has stopped answering: what waits to go out to it goes to good ones, if there are any. */
    method NameserverFailed(ns: Nameserver)
      requires Valid() && ns in servers
      modifies this`good, this`serverHead, this`servers, ns`up, nodes`ns
      ensures Valid() && !ns.up && Elements(servers) == old(Elements(servers))
      ensures forall r <- nodes :: r.ns == old(r.ns) || (old(r.ns) == ns && r.txCount == 0 && r.ns != null && r.ns.up)
      ensures old(ns.up) && good > 0 ==>
        forall r <- nodes :: old(Unsent(r, ns)) ==> r.ns != null && r.ns != ns && r.ns.up
      ensures old(IdsDiffer()) ==> IdsDiffer()
      ensures ChokedStay()
    {
      hide Valid, Elements;
      if !ns.up { return; }
      SetUp(ns, false);
      if good == 0 { return; }
      GoodCount();
      HeadsCount();
      for b := 0 to |heads|
        invariant Valid() && !ns.up && Elements(servers) == old(Elements(servers)) && good > 0
        invariant ChokedStay()
        invariant forall r <- nodes ::
          r.ns == old(r.ns) || (old(r.ns) == ns && r.txCount == 0 && r.ns != null && r.ns.up)
        invariant b <= |buckets| && forall c, r | 0 <= c < b && r in buckets[c] :: !Unsent(r, ns)
      {
        HeadsCount();
        MoveUnsent(b, ns);
      }
      HeadsCount();
      forall r | r in nodes && old(Unsent(r, ns)) ensures !Unsent(r, ns) {
        NsListed(r);
      }
    }

    lemma HeadsCount()
      requires Valid()
      ensures |heads| == |buckets| > 0
    {
    }

    lemma GoodCount()
      requires Valid()
      ensures good >= 0
    {
    }

    method NameserverUp(ns: Nameserver)
      requires Valid() && ns in servers
      modifies this`good, ns`up
      ensures Valid() && ns.up
    {
      if ns.up { return; }
      SetUp(ns, true);
    }

    /** Some socket is choked, so that everything that is marked is sent once it takes packets again. */
    ghost predicate SomeChoked()
      reads this`servers, servers`choked
    {
      exists ns <- servers :: ns.choked
    }

    /** The nameservers are still there, sockets that were choked still are, and none of them has come up. */
    twostate predicate ChokedStay()
      reads this`servers, servers`choked, servers`up
    {
      forall ns <- old(servers) :: ns in servers && (old(ns.choked) ==> ns.choked) && (ns.up ==> old(ns.up))
    }

    /** The request is marked to be sent, or has been sent and waits for its timeout. */
    ghost predicate Sent(r: Request)
      reads r
    {
      r.transmitMe || (r.txCount > 0 && r.timer)
    }

    /** The request has not been forgotten: its timeout is pending, or it is marked and everything that is marked is
        going to be sent. */
    ghost predicate Heard(r: Request)
      reads this`servers, servers`choked, r
    {
      Sent(r) && (r.timer || SomeChoked())
    }

    /** No request in flight has been forgotten, but perhaps x. */
    ghost predicate AllHeard(x: Request?)
      reads this`servers, this`nodes, servers`choked, nodes
    {
      forall r <- nodes :: r != x && r.ns != null ==> Heard(r)
    }

    twostate lemma HeardKept(x: Request?)
      requires old(AllHeard(x) || AllHeard(null)) && ChokedStay()
      requires forall r <- nodes :: r != x ==>
        r in old(nodes) && (r.ns != null ==> old(r.ns) != null) && r.transmitMe == old(r.transmitMe)
        && r.txCount == old(r.txCount) && r.timer == old(r.timer)
      ensures AllHeard(x)
    {
    }

    /** Marks a socket as taking nothing, or as taking packets again. */
    method Choke(ns: Nameserver, choked: bool)
      requires Valid() && ns in servers
      modifies ns`choked
      ensures Valid() && ns.choked == choked
    {
      hide Ring, Lengths, ServerRing;
      ghost var were := Up(Elements(servers));
      ns.choked := choked;
      assert Up(Elements(servers)) == were;
      forall c ensures BucketOk(c) { assert old(BucketOk(c)); }
      forall r | r in nodes ensures Listed(r) { assert old(Listed(r)); }
    }

    /** Tries to send a request.  The socket may be choked, fail for now, fail for good, or send. */
    method Transmit(req: Request) returns (r: int, ghost outcome: Option<Outcome>)
      requires Valid() && req in nodes
      modifies this`good, this`serverHead, this`servers, Elements(servers)`up, Elements(servers)`choked, nodes`ns,
        req`transmitMe, req`txCount, req`timer
      ensures Valid() && Elements(servers) == old(Elements(servers))
      ensures forall r <- nodes :: (r.ns == null <==> old(r.ns) == null)
      ensures forall r <- nodes ::
        r.ns == old(r.ns) || (old(r.ns) == old(req.ns) && old(r.ns) != null && !old(r.ns.choked))
      ensures ChokedStay()
      ensures req.ns == null ==> req.transmitMe && req.txCount == old(req.txCount)
      ensures req.ns != null ==>
        if req.transmitMe then req.ns.choked && req.txCount == old(req.txCount) && req.timer == old(req.timer)
        else req.timer && req.txCount == old(req.txCount) + 1
      ensures outcome == None <==> old(req.ns) == null || old(req.ns.choked)
      ensures req.ns != null ==> (req.transmitMe <==> outcome == None || outcome == Some(FailsForNow))
      ensures outcome == Some(FailsForGood) ==> !old(req.ns).up
      ensures outcome != Some(FailsForGood) ==> good == old(good) && forall r <- nodes :: r.ns == old(r.ns)
      ensures outcome != Some(FailsForGood) ==> forall ns <- old(servers) :: ns.up == old(ns.up)
      ensures forall ns <- old(servers) ::
        ns.choked <==> old(ns.choked) || (outcome == Some(FailsForNow) && ns == old(req.ns))
      ensures r == if outcome == Some(Goes) then 0 else 1
      ensures req.ns != null && old(AllHeard(req)) ==> AllHeard(null)
    {
      hide Valid, Elements;
      outcome := None;
      Mark(req, true, req.txCount, req.timer);
      if req.ns == null { return 1, outcome; }
      NsListed(req);
      var ns: Nameserver := req.ns;
      InElements(servers, ns);
      if ns.choked {
        if old(AllHeard(req)) { HeardKept(req); }
        return 1, outcome;
      }
      var sent: Outcome := *;
      outcome := Some(sent);
      if sent == FailsForNow {
        Choke(ns, true);
        if old(AllHeard(req)) { HeardKept(req); }
        return 1, outcome;
      }
      r := 0;
      if sent == FailsForGood {
        NameserverFailed(ns);
        r := 1;
      }
      Mark(req, false, req.txCount + 1, true);
      if old(AllHeard(req)) { HeardKept(req); }
    }

    method Mark(req: Request, transmitMe: bool, txCount: nat, timer: bool)
      requires Valid()
      modifies req`transmitMe, req`txCount, req`timer
      ensures Valid() && req.transmitMe == transmitMe && req.txCount == txCount && req.timer == timer
    {
      hide Ring, Lengths, ServerRing, Up;
      req.transmitMe, req.txCount, req.timer := transmitMe, txCount, timer;
      forall c ensures BucketOk(c) { assert old(BucketOk(c)); }
      forall r | r in nodes ensures Listed(r) { assert old(Listed(r)); }
      assert QueueOk() by { assert old(QueueOk()); }
    }

    lemma NsListed(req: Request)
      requires Valid() && req in nodes && req.ns != null
      ensures req.ns in servers && req in buckets[req.transId % |buckets|] && req.transId < NO_ID
    {
      assert Listed(req) && BucketOk(req.transId % |buckets|);
      var i :| 0 <= i < |buckets[req.transId % |buckets|]| && buckets[req.transId % |buckets|][i] == req;
      assert Flying(req, req.transId % |buckets|);
    }

    /** No two requests in flight have the same transaction id. */
    ghost predicate IdsDiffer()
      reads this`nodes, nodes`ns, nodes`transId
    {
      forall r, q | r in nodes && q in nodes && r.ns != null && q.ns != null && r != q :: r.transId != q.transId
    }

    /** The request in flight with a given id, if there is one. */
    method FindFromTransId(id: nat) returns (found: Request?)
      requires Valid()
      ensures found != null ==> found in nodes && found.ns != null && found.transId == id
      ensures found == null ==> forall r <- nodes :: r.ns != null ==> r.transId != id
    {
      hide Valid, Ring, Elements;
      HeadsCount();
      var b := id % |heads|;
      ghost var s := buckets[b];
      BucketStart(b);
      var req := heads[b];
      ghost var k := 0;
      if req != null {
        while true
          invariant k < |s| && req == s[k] && forall i | 0 <= i < k :: s[i].transId != id
          decreases |s| - k
        {
          BucketNext(b, k);
          if req.transId == id { return req; }
          req := req.next;
          if req == heads[b] { break; }
          k := k + 1;
        }
      }
      forall r | r in nodes && r.ns != null ensures r.transId != id {
        NsListed(r);
      }
      found := null;
    }

    /** No request can get this id now. */
    ghost predicate IdTaken(id: nat)
      reads this`nodes, nodes`ns, nodes`transId
    {
      id == NO_ID || exists r <- nodes :: r.ns != null && r.transId == id
    }

    /** No draw was of any use. */
    ghost predicate AllTaken(drawn: seq<nat>, tries: nat)
      reads this`nodes, nodes`ns, nodes`transId
    {
      |drawn| == tries && forall d <- drawn :: IdTaken(d)
    }

    /** Draws numbers until one is not the id of a request in flight; gives up after `tries` draws. */
    method TransactionIdPick(tries: nat) returns (ok: bool, id: nat, ghost drawn: seq<nat>)
      requires Valid()
      ensures ok ==> id < NO_ID && forall r <- nodes :: r.ns != null ==> r.transId != id
      ensures !ok ==> AllTaken(drawn, tries)
    {
      hide Valid;
      drawn := [];
      for i := 0 to tries
        invariant |drawn| == i && forall d <- drawn :: IdTaken(d)
      {
        var draw: nat := *;
        id := draw % 0x1_0000;
        if id != NO_ID {
          var found := FindFromTransId(id);
          if found == null { return true, id, drawn; }
        }
        drawn := drawn + [id];
      }
      ok, id := false, NO_ID;
    }

    /** Sends everything that is marked, unless its socket is choked. */
    method TransmitAll() returns (ghost full: set<Nameserver>)
      requires Valid()
      modifies this`good, this`serverHead, this`servers, Elements(servers)`up, Elements(servers)`choked, nodes`ns,
        nodes`transmitMe, nodes`txCount, nodes`timer
      ensures Valid() && Elements(servers) == old(Elements(servers)) && ChokedStay()
      ensures forall r <- nodes :: (r.ns == null <==> old(r.ns) == null) && SentNow(r) && Tried(r)
      ensures old((forall r <- nodes :: r.ns != null ==> Sent(r)) || AllHeard(null)) ==> AllHeard(null)
      ensures Choked(full)
    {
      hide Valid, Elements, Ring, Tried;
      FlyingListed();
      full := {};
      for b := 0 to |heads|
        invariant Valid() && Elements(servers) == old(Elements(servers)) && ChokedStay()
        invariant forall r <- nodes :: (r.ns == null <==> old(r.ns) == null) && SentNow(r)
        invariant forall r <- nodes :: 0 <= BucketOf(r) < b ==> Tried(r)
        invariant Choked(full)
      {
        HeadsCount();
        ghost var more := TransmitBucket(b);
        full := full + more;
      }
      FlyingListed();
      TriedChoked();
      if old((forall r <- nodes :: r.ns != null ==> Sent(r)) || AllHeard(null)) {
        forall r | r in nodes && r.ns != null ensures Heard(r) { SentStill(r); }
      }
    }

    lemma TriedChoked()
      requires Valid() && forall r <- nodes :: Tried(r)
      ensures forall r <- nodes :: r.ns != null && r.transmitMe ==> SomeChoked()
    {
      ServersListed();
    }

    /** The sockets that are choked are those that were, and those of `full`, which took nothing for now. */
    twostate predicate Choked(new full: set<Nameserver>)
      reads this`servers, servers`choked
    {
      forall ns <- old(servers) :: ns in servers && (ns.choked <==> old(ns.choked) || ns in full)
    }

    /** The request is not marked, or its socket is choked. */
    ghost predicate Tried(r: Request)
      reads r, if r.ns == null then {} else {r.ns}
    {
      r.ns != null && r.transmitMe ==> r.ns.choked
    }

    /** Sends the requests of bucket b that are marked, unless their sockets are choked. */
    method TransmitBucket(b: nat) returns (ghost full: set<Nameserver>)
      requires Valid() && b < |buckets|
      modifies this`good, this`serverHead, this`servers, Elements(servers)`up, Elements(servers)`choked, nodes`ns,
        nodes`transmitMe, nodes`txCount, nodes`timer
      ensures Valid() && Elements(servers) == old(Elements(servers)) && ChokedStay()
      ensures forall r <- nodes :: (r.ns == null <==> old(r.ns) == null) && SentNow(r)
      ensures forall r <- nodes :: old(Tried(r)) || BucketOf(r) == b ==> Tried(r)
      ensures Choked(full)
    {
      hide Valid, Elements, Ring, AllHeard, SomeChoked, Tried;
      BucketStart(b);
      ghost var s := buckets[b];
      var req := heads[b];
      ghost var k := 0;
      full := {};
      if req == null {
        AllTried(b);
        return;
      }
      while true
        invariant Valid() && k < |s| && buckets[b] == s && req == s[k] && Elements(servers) == old(Elements(servers))
        invariant ChokedStay()
        invariant forall r <- nodes :: r.ns == null <==> old(r.ns) == null
        invariant forall r <- nodes :: SentNow(r)
        invariant forall r <- nodes :: old(Tried(r)) ==> Tried(r)
        invariant forall i | 0 <= i < k :: s[i] in nodes && Tried(s[i])
        invariant Choked(full)
        decreases |s| - k
      {
        BucketNext(b, k);
        ghost var more := SendIfMarked(req);
        full := full + more;
        BucketNext(b, k);
        req := req.next;
        k := k + 1;
        if req == heads[b] { break; }
      }
      assert k == |s|;
      AllTried(b);
    }

    lemma AllTried(b: nat)
      requires Valid() && b < |buckets| && forall r <- buckets[b] :: Tried(r)
      ensures forall r <- nodes :: BucketOf(r) == b ==> Tried(r)
    {
      FlyingListed();
    }

    /** Sends a request if it is marked.  What has been tried before stays with its choked socket. */
    method SendIfMarked(req: Request) returns (ghost full: set<Nameserver>)
      requires Valid() && req in nodes && req.ns != null
      modifies this`good, this`serverHead, this`servers, Elements(servers)`up, Elements(servers)`choked, nodes`ns,
        req`transmitMe, req`txCount, req`timer
      ensures Valid() && Elements(servers) == old(Elements(servers)) && ChokedStay() && SentNow(req)
      ensures forall r <- nodes :: (r.ns == null <==> old(r.ns) == null)
      ensures Tried(req) && forall r <- nodes :: old(Tried(r)) ==> Tried(r)
      ensures Choked(full)
    {
      hide Valid, Elements, AllHeard, SomeChoked;
      ServersListed();
      ServersSame();
      full := {};
      if req.transmitMe {
        ghost var ns := req.ns;
        var r: int;
        ghost var outcome;
        r, outcome := Transmit(req);
        if outcome == Some(FailsForNow) { full := {ns}; }
        ServersSame();
      }
    }

    function BucketOf(r: Request): int
      reads this`heads, r`transId
    {
      if heads == [] then -1 else r.transId % |heads|
    }

    lemma FlyingListed()
      requires Valid()
      ensures |heads| == |buckets| > 0
      ensures forall r <- nodes :: r.ns != null ==> BucketOf(r) < |buckets| && r in buckets[BucketOf(r)]
    {
      forall r | r in nodes && r.ns != null ensures r in buckets[BucketOf(r)] { NsListed(r); }
    }

    lemma ServersSame()
      ensures forall ns :: ns in servers <==> ns in Elements(servers)
    {
    }

    lemma ServersListed()
      requires Valid()
      ensures forall r <- nodes :: r.ns != null ==> r.ns in servers
    {
      forall r | r in nodes && r.ns != null ensures r.ns in servers { NsListed(r); }
    }

    /** The request is as it was, or it was marked and has been sent. */
    twostate predicate SentNow(r: Request)
      reads r
    {
      if r.transmitMe == old(r.transmitMe) then r.txCount == old(r.txCount) && r.timer == old(r.timer)
      else old(r.transmitMe) && r.txCount == old(r.txCount) + 1 && r.timer
    }

    twostate lemma SentStill(r: Request)
      requires SentNow(r) && old(Sent(r))
      ensures Sent(r)
    {
    }

    method AssignNs(req: Request, ns: Nameserver, id: nat)
      requires Valid() && req !in nodes
      modifies req`ns, req`transId
      ensures Valid() && req.ns == ns && req.transId == id
    {
      hide Ring, Lengths, ServerRing, Up;
      req.ns, req.transId := ns, id;
      forall c ensures BucketOk(c) { assert old(BucketOk(c)); }
      forall r | r in nodes ensures Listed(r) { assert old(Listed(r)); }
      assert QueueOk() by { assert old(QueueOk()); }
    }

    /** Promotes requests from the queue as long as there is room in flight.  Gives up if it does not find a free id. */
    method PumpWaitingQueue(tries: nat) returns (done: bool, ghost drawn: seq<nat>)
      requires Valid()
      modifies this`good, this`serverHead, this`servers, this`heads, this`inflight, this`buckets, this`nodes,
        this`waitingHead, this`waiting, this`queue, Elements(servers)`up, Elements(servers)`choked, nodes
      ensures Valid() && nodes == old(nodes) && Elements(servers) == old(Elements(servers))
      ensures exists k :: 0 <= k <= |old(queue)| && queue == old(queue)[k..]
      ensures ChokedStay()
      ensures inflight + waiting == old(inflight + waiting) && (inflight <= maxInflight || inflight == old(inflight))
      ensures if done then inflight >= maxInflight || queue == [] || servers == [] else AllTaken(drawn, tries)
      ensures old(IdsDiffer()) ==> IdsDiffer()
      ensures old(AllHeard(null)) ==> AllHeard(null)
    {
      hide Valid, Elements, AllHeard, AllTaken;
      done, drawn := true, [];
      ghost var k := 0;
      WaitingCount();
      while inflight < maxInflight && waiting > 0
        invariant Valid() && nodes == old(nodes) && Elements(servers) == old(Elements(servers)) && waiting == |queue|
        invariant k <= |old(queue)| && queue == old(queue)[k..]
        invariant ChokedStay() && inflight + waiting == old(inflight + waiting)
          && (inflight <= maxInflight || inflight == old(inflight))
        invariant old(IdsDiffer()) ==> IdsDiffer()
        invariant old(AllHeard(null)) ==> AllHeard(null)
        decreases |queue|
      {
        var promoted, stuck;
        promoted, stuck, drawn := Promote(tries);
        WaitingCount();
        if !promoted { return !stuck, drawn; }
        k := k + 1;
      }
    }

    lemma WaitingCount()
      requires Valid()
      ensures waiting == |queue| && waitingHead == (if queue == [] then null else queue[0])
      ensures queue != [] ==> queue[0] in nodes && queue[0].ns == null
    {
    }

    /** Moves the first request of the queue into flight and sends it. */
    method Promote(tries: nat) returns (promoted: bool, stuck: bool, ghost drawn: seq<nat>)
      requires Valid() && queue != []
      modifies this`good, this`serverHead, this`servers, this`heads, this`inflight, this`buckets, this`nodes,
        this`waitingHead, this`waiting, this`queue, Elements(servers)`up, Elements(servers)`choked, nodes
      ensures Valid() && nodes == old(nodes) && Elements(servers) == old(Elements(servers))
      ensures queue == if promoted then old(queue)[1..] else old(queue)
      ensures inflight == (if promoted then old(inflight) + 1 else old(inflight)) && ChokedStay()
      ensures !promoted ==> if stuck then AllTaken(drawn, tries) else servers == []
      ensures promoted ==> old(queue)[0] in nodes && old(queue)[0].ns != null
      ensures old(IdsDiffer()) ==> IdsDiffer()
      ensures old(AllHeard(null)) ==> AllHeard(null)
    {
      hide Valid, Elements, Cut, Heard, AllHeard, IdsDiffer, SomeChoked, Tried;
      promoted, stuck, drawn := false, false, [];
      WaitingCount();
      var req: Request := waitingHead;
      var ns := Pick();
      if old(AllHeard(null)) { HeardKept(null); }
      if ns == null { return; }
      var ok, id;
      ok, id, drawn := TransactionIdPick(tries);
      if !ok { return false, true, drawn; }
      RaiseFirst(req, ns, id);
      SendFirst(req);
      promoted := true;
    }

    /** Sends a request that has just been put into flight, and everything else that is marked. */
    method SendFirst(req: Request)
      requires Valid() && req in nodes && req.ns != null
      modifies this`good, this`serverHead, this`servers, Elements(servers)`up, Elements(servers)`choked, nodes`ns,
        nodes`transmitMe, nodes`txCount, nodes`timer
      ensures Valid() && Elements(servers) == old(Elements(servers)) && req.ns != null && ChokedStay()
      ensures forall r <- nodes :: Tried(r)
      ensures old(IdsDiffer()) ==> IdsDiffer()
      ensures old(AllHeard(req)) ==> AllHeard(null)
    {
      hide Valid, Elements, AllHeard, Heard, SomeChoked, Tried, SentNow;
      ghost var outcome;
      var r: int;
      r, outcome := Transmit(req);
      ghost var full := TransmitAll();
    }

    /** Moves the first request of the queue into flight. */
    method RaiseFirst(req: Request, ns: Nameserver, id: nat)
      requires Valid() && queue != [] && req == queue[0] && req in nodes && ns in servers && id < NO_ID
      requires forall r <- nodes :: r.ns != null ==> r.transId != id
      modifies this`heads, this`inflight, this`buckets, this`nodes, this`waitingHead, this`waiting, this`queue,
        req`ns, req`transId, nodes`next, nodes`prev
      ensures Valid() && nodes == old(nodes) && queue == old(queue)[1..] && req.ns == ns && req.transId == id
      ensures inflight == old(inflight) + 1
      ensures old(IdsDiffer()) ==> IdsDiffer()
      ensures old(AllHeard(null)) ==> AllHeard(req)
    {
      hide Valid, Elements, Cut;
      CutFirst(queue);
      UnlinkWaiting(req, 0);
      AssignNs(req, ns, id);
      LinkInflight(req);
      if old(AllHeard(null)) { HeardKept(req); }
    }

    /** Puts a new request into flight if it has a nameserver, and into the queue otherwise. */
    method RequestSubmit(req: Request) returns (ghost outcome: Option<Outcome>)
      requires Valid() && req !in nodes && (req.ns != null ==> req.ns in servers && req.transId < NO_ID)
      modifies this`good, this`serverHead, this`servers, this`heads, this`inflight, this`buckets, this`nodes,
        this`waitingHead, this`waiting, this`queue, Elements(servers)`up, Elements(servers)`choked, nodes, req
      ensures Valid() && nodes == old(nodes) + {req} && Elements(servers) == old(Elements(servers))
      ensures old(req.ns) != null ==> queue == old(queue) && inflight == old(inflight) + 1
      ensures old(req.ns) == null ==> queue == old(queue) + [req] && inflight == old(inflight)
      ensures old(IdsDiffer())
        && (old(req.ns) != null ==> forall r <- old(nodes) :: old(r.ns) != null ==> old(r.transId) != old(req.transId))
        ==> IdsDiffer()
      ensures old(req.ns) != null ==>
        req.ns != null && if req.transmitMe then req.ns.choked else req.timer && req.txCount == old(req.txCount) + 1
      ensures old(AllHeard(null)) ==> AllHeard(null)
    {
      hide Valid, Elements, Heard, SomeChoked;
      outcome := None;
      if req.ns != null {
        LinkInflight(req);
        if old(AllHeard(null)) { HeardKept(req); }
        var r: int;
        r, outcome := Transmit(req);
      } else {
        Enqueue(req);
        if old(AllHeard(null)) { HeardKept(req); }
      }
    }

    /** Takes a request off the list it is on. */
    method Unlink(req: Request)
      requires Valid() && req in nodes
      modifies this`heads, this`inflight, this`buckets, this`nodes, this`waitingHead, this`waiting, this`queue,
        nodes`next, nodes`prev
      ensures Valid() && nodes == old(nodes) - {req}
      ensures inflight + waiting == old(inflight + waiting) - 1 && inflight <= old(inflight)
    {
      hide Valid, Cut;
      WaitingCount();
      if req.ns != null {
        NsListed(req);
        HeadsCount();
        ghost var s := buckets[req.transId % |buckets|];
        ghost var k :| 0 <= k < |s| && s[k] == req;
        UnlinkInflight(req, k);
      } else {
        InQueue(req);
        ghost var k :| 0 <= k < |queue| && queue[k] == req;
        UnlinkWaiting(req, k);
      }
      WaitingCount();
    }

    /** Takes a request that is done or given up off its list, and lets others follow. */
    method RequestFinished(req: Request, tries: nat) returns (done: bool, ghost drawn: seq<nat>)
      requires Valid() && req in nodes
      modifies this`good, this`serverHead, this`servers, this`heads, this`inflight, this`buckets, this`nodes,
        this`waitingHead, this`waiting, this`queue, Elements(servers)`up, Elements(servers)`choked, nodes
      ensures Valid() && nodes == old(nodes) - {req} && Elements(servers) == old(Elements(servers))
      ensures if done then inflight >= maxInflight || queue == [] || servers == [] else AllTaken(drawn, tries)
      ensures inflight + waiting == old(inflight + waiting) - 1 && ChokedStay()
      ensures inflight <= maxInflight || inflight <= old(inflight)
      ensures old(IdsDiffer()) ==> IdsDiffer()
      ensures old(AllHeard(req)) ==> AllHeard(null)
    {
      hide Valid, Elements, SomeChoked;
      Unlink(req);
      done, drawn := PumpWaitingQueue(tries);
    }

    lemma InQueue(req: Request)
      requires Valid() && req in nodes && req.ns == null
      ensures req in queue
    {
      assert Listed(req);
    }

    /** Tries a request again with another nameserver, if there is another. */
    method RequestReissue(req: Request) returns (failed: bool)
      requires Valid() && req in nodes && req.ns != null
      modifies this`serverHead, this`servers, req`ns, req`reissueCount, req`txCount, req`transmitMe, req`timer
      ensures Valid() && Elements(servers) == old(Elements(servers)) && req.ns != null
      ensures req.ns == old(Picked()) && (failed <==> old(Picked()) == old(req.ns))
      ensures !failed ==> req.transmitMe && req.txCount == 0
      ensures !failed ==> req.reissueCount == old(req.reissueCount) + 1
      ensures failed ==> unchanged(req)
      ensures old(IdsDiffer()) ==> IdsDiffer()
      ensures old(AllHeard(null)) ==> AllHeard(null)
    {
      hide Valid, Elements;
      NsListed(req);
      var ns := Pick();
      NsListed(req);
      if ns == req.ns { return true; }
      SetNs(req, ns);
      Mark(req, true, 0, req.timer);
      CountReissue(req);
      failed := false;
    }

    method CountReissue(req: Request)
      requires Valid()
      modifies req`reissueCount
      ensures Valid() && req.reissueCount == old(req.reissueCount) + 1
    {
      hide Ring, Lengths, ServerRing, Up;
      req.reissueCount := req.reissueCount + 1;
      forall c ensures BucketOk(c) { assert old(BucketOk(c)); }
      forall r | r in nodes ensures Listed(r) { assert old(Listed(r)); }
      assert QueueOk() by { assert old(QueueOk()); }
    }

    /** Sends a request to the next nameserver. */
    method SendAgain(req: Request) returns (ghost outcome: Option<Outcome>)
      requires Valid() && req in nodes && req.ns != null
      modifies this`good, this`serverHead, this`servers, Elements(servers)`up, Elements(servers)`choked, nodes`ns,
        req`transmitMe, req`txCount, req`timer
      ensures Valid() && Elements(servers) == old(Elements(servers)) && ChokedStay() && req.ns != null
      ensures if req.transmitMe then req.ns.choked && req.txCount == old(req.txCount) && req.timer == old(req.timer)
        else req.timer && req.txCount == old(req.txCount) + 1
      ensures outcome != Some(FailsForGood) ==>
        good == old(good) && req.ns == old(Picked()) && (good > 0 ==> req.ns.up)
      ensures old(IdsDiffer()) ==> IdsDiffer()
      ensures old(AllHeard(req)) ==> AllHeard(null)
    {
      hide Valid, Elements, Heard, AllHeard, SomeChoked;
      SendElsewhere(req);
      if old(AllHeard(req)) { HeardKept(req); }
      var r: int;
      r, outcome := Transmit(req);
    }

    /** The timeout of a request has come without a reply: it is given up or sent again, maybe elsewhere.  If the
        nameserver has had too many timeouts, it is bad. */
    method RequestTimeout(req: Request, maxRetransmits: nat, bad: bool, tries: nat)
      returns (done: bool, ghost outcome: Option<Outcome>)
      requires Valid() && req in nodes && req.ns != null && req.timer
      modifies this`good, this`serverHead, this`servers, this`heads, this`inflight, this`buckets, this`nodes,
        this`waitingHead, this`waiting, this`queue, Elements(servers)`up, Elements(servers)`choked, nodes
      ensures Valid() && Elements(servers) == old(Elements(servers))
      ensures nodes == if old(req.txCount) >= maxRetransmits then old(nodes) - {req} else old(nodes)
      ensures req in nodes ==>
        done && req.ns != null
        && if req.transmitMe then req.ns.choked && req.txCount == old(req.txCount) && !req.timer
           else req.timer && req.txCount == old(req.txCount) + 1
      ensures req in nodes && outcome != Some(FailsForGood) ==>
        if bad then good > 0 ==> req.ns.up else req.ns == old(Picked())
      ensures bad ==> !old(req.ns).up
      ensures old(IdsDiffer()) ==> IdsDiffer()
      ensures old(AllHeard(null)) ==> AllHeard(null)
    {
      hide Valid, Elements, Heard, AllHeard, SomeChoked;
      outcome := None;
      NsListed(req);
      Mark(req, req.transmitMe, req.txCount, false);
      NsListed(req);
      if bad {
        var ns: Nameserver := req.ns;
        InElements(servers, ns);
        NameserverFailed(ns);
      }
      if old(AllHeard(null)) { HeardKept(req); }
      if req.txCount >= maxRetransmits {
        ghost var drawn;
        done, drawn := RequestFinished(req, tries);
      } else {
        outcome := SendAgain(req);
        done := true;
      }
    }

    /** Gives a request to the next nameserver. */
    method SendElsewhere(req: Request)
      requires Valid() && req in nodes && req.ns != null
      modifies this`serverHead, this`servers, req`ns
      ensures Valid() && Elements(servers) == old(Elements(servers)) && ChokedStay()
      ensures req.ns == old(Picked()) && req.ns != null && (good > 0 ==> req.ns.up)
    {
      hide Valid, Elements;
      NsListed(req);
      var ns := Pick();
      if ns != null { SetNs(req, ns); }
      assert servers != [];
    }

    /** The socket of a nameserver takes packets again: everything that is marked is sent. */
    method NameserverReady(ns: Nameserver) returns (ghost full: set<Nameserver>)
      requires Valid() && ns in servers
      modifies this`good, this`serverHead, this`servers, Elements(servers)`up, Elements(servers)`choked, nodes`ns,
        nodes`transmitMe, nodes`txCount, nodes`timer
      ensures Valid() && Elements(servers) == old(Elements(servers))
      ensures forall r <- nodes :: (r.ns == null <==> old(r.ns) == null)
      ensures forall r <- nodes :: SentNow(r) && Tried(r)
      ensures forall x <- old(servers) :: x in servers && (x.choked <==> (old(x.choked) && x != ns) || x in full)
      ensures old(AllHeard(null)) ==> AllHeard(null)
    {
      hide Valid, Elements;
      InElements(servers, ns);
      Choke(ns, false);
      full := TransmitAll();
    }

    /** The requests of `some` are in the given lists, each where its id belongs. */
    ghost predicate Hashed(lists: seq<seq<Request>>, hs: seq<Request?>, some: set<Request>)
      reads some
    {
      && |lists| == |hs| > 0
      && (forall b :: HashedAt(lists, hs, some, b))
      && (forall r <- some :: r in lists[r.transId % |lists|])
    }

    ghost predicate HashedAt(lists: seq<seq<Request>>, hs: seq<Request?>, some: set<Request>, b: int)
      reads some
    {
      0 <= b < |lists| && |lists| == |hs| ==>
        && (forall i | 0 <= i < |lists[b]| :: lists[b][i] in some && lists[b][i].transId % |lists| == b)
        && Ring(lists[b], hs[b])
    }

    /** Moves the first request of old bucket b to the new bucket where it belongs. */
    method MoveFirst(
        oldHeads: seq<Request?>, b: nat, newHeads: seq<Request?>,
        ghost olds: seq<seq<Request>>, ghost left: set<Request>, ghost news: seq<seq<Request>>,
        ghost moved: set<Request>)
      returns (hs: seq<Request?>, gs: seq<Request?>, ghost os: seq<seq<Request>>, ghost ns: seq<seq<Request>>)
      requires Hashed(olds, oldHeads, left) && Hashed(news, newHeads, moved) && left !! moved
      requires b < |olds| && olds[b] != []
      modifies left`next, left`prev, moved`next, moved`prev
      ensures var req := olds[b][0];
        req in left && Hashed(os, hs, left - {req}) && Hashed(ns, gs, moved + {req})
      ensures os == olds[b := olds[b][1..]] && |ns| == |news| && |hs| == |oldHeads| && |gs| == |newHeads|
      ensures Lengths(ns) == Lengths(news) + 1 && Lengths(os) == Lengths(olds) - 1
    {
      hide Ring, Lengths, Cut, Hashed, HashedAt;
      ListOf(olds, oldHeads, left, b);
      HeadOf(olds[b], oldHeads[b]);
      var req: Request := oldHeads[b];
      CutFacts(olds[b], 0, oldHeads[b]);
      CutFirst(olds[b]);
      HashedSizes(news, newHeads, moved);
      ghost var list := news[req.transId % |newHeads|];
      ListOf(news, newHeads, moved, req.transId % |newHeads|);
      var h := RequestRemove(req, oldHeads[b], olds[b], 0);
      hs, os := oldHeads[b := h], olds[b := olds[b][1..]];
      var c := req.transId % |newHeads|;
      assert news[c] == list && Ring(list, newHeads[c]);
      var g := RequestInsert(req, newHeads[c], news[c]);
      gs, ns := newHeads[c := g], news[c := news[c] + [req]];
      LengthsUpdate(news, c, news[c] + [req]);
      LengthsUpdate(olds, b, olds[b][1..]);
      assert Ring(olds[b][1..], h);
      Relisted(Relisting(olds, oldHeads, left, b, olds[b][1..], h, left - {req}));
      Relisted(Relisting(news, newHeads, moved, c, news[c] + [req], g, moved + {req}));
    }

    lemma HashedSizes(lists: seq<seq<Request>>, hs: seq<Request?>, some: set<Request>)
      requires Hashed(lists, hs, some)
      ensures |lists| == |hs| > 0
    {
    }

    lemma ListOf(lists: seq<seq<Request>>, hs: seq<Request?>, some: set<Request>, b: nat)
      requires Hashed(lists, hs, some) && b < |lists|
      ensures |hs| == |lists| && Ring(lists[b], hs[b])
      ensures forall r <- lists[b] :: r in some && r.transId % |lists| == b
      ensures forall i | 0 <= i < |lists[b]| :: lists[b][i] in some
    {
      hide Ring;
      assert HashedAt(lists, hs, some, b);
    }

    twostate lemma Relisted(m: Relisting)
      requires old(Hashed(m.lists, m.hs, m.some)) && m.b < |m.lists| == |m.hs| && Ring(m.list, m.h)
      requires forall r <- m.list :: r in m.now && r.transId % |m.lists| == m.b
      requires forall r <- m.now :: r in m.list || (r in m.some && r !in m.lists[m.b])
      requires forall r | r in m.some && r !in m.lists[m.b] :: r in m.now && unchanged(r)
      ensures Hashed(m.lists[m.b := m.list], m.hs[m.b := m.h], m.now)
    {
      hide Ring;
      var lists, hs := m.lists[m.b := m.list], m.hs[m.b := m.h];
      forall d ensures HashedAt(lists, hs, m.now, d) {
        assert old(HashedAt(m.lists, m.hs, m.some, d)) && old(HashedAt(m.lists, m.hs, m.some, m.b));
      }
    }

    ghost function Aloft(): set<Request>
      reads this, nodes
    {
      set r | r in nodes && r.ns != null
    }

    lemma BucketsHashed()
      requires Valid()
      ensures Hashed(buckets, heads, Aloft())
    {
      hide Ring, Lengths, ServerRing, Up;
      forall b ensures HashedAt(buckets, heads, Aloft(), b) {
        assert BucketOk(b);
        if 0 <= b < |buckets| {
          forall i | 0 <= i < |buckets[b]| ensures buckets[b][i] in Aloft() && buckets[b][i].transId % |buckets| == b {
            assert Flying(buckets[b][i], b);
          }
        }
      }
      forall r | r in Aloft() ensures r in buckets[r.transId % |buckets|] { assert Listed(r); }
    }

    /** All that does not depend on the buckets. */
    ghost predicate RestOk()
      reads this, nodes, servers
    {
      && waiting == |queue| && ServersOk() && QueueOk()
      && (forall r <- nodes :: r.ns == null ==> r in queue)
      && (forall r <- nodes :: r.ns != null ==> r.ns in servers && r.transId < NO_ID)
    }

    lemma RestIsOk()
      requires Valid()
      ensures RestOk() && inflight == Lengths(buckets) && |heads| == |buckets| > 0
    {
      hide Ring, Lengths, ServerRing, Up;
      forall r | r in nodes ensures if r.ns == null then r in queue else r.ns in servers && r.transId < NO_ID {
        assert Listed(r);
        if r.ns != null { NsListed(r); }
      }
    }

    lemma EmptyHashed(lists: seq<seq<Request>>, hs: seq<Request?>)
      requires |lists| == |hs| > 0 && forall b | 0 <= b < |lists| :: lists[b] == [] && hs[b] == null
      ensures Hashed(lists, hs, {}) && Lengths(lists) == 0
    {
      EmptyLengths(lists);
      forall b ensures HashedAt(lists, hs, {}, b) { }
    }

    lemma HashedHead(lists: seq<seq<Request>>, hs: seq<Request?>, some: set<Request>, b: nat)
      requires Hashed(lists, hs, some) && b < |lists|
      ensures b < |hs| && hs[b] == if lists[b] == [] then null else lists[b][0]
    {
      assert HashedAt(lists, hs, some, b);
    }

    lemma NoneLeft(lists: seq<seq<Request>>, hs: seq<Request?>, some: set<Request>)
      requires Hashed(lists, hs, some) && forall j | 0 <= j < |lists| :: lists[j] == []
      ensures some == {} && Lengths(lists) == 0
    {
      EmptyLengths(lists);
      assert forall r <- some :: r in lists[r.transId % |lists|];
    }

    /** Makes other buckets, which hold the same requests, the current ones. */
    method Install(hs: seq<Request?>, max: int, ghost lists: seq<seq<Request>>)
      requires RestOk() && Hashed(lists, hs, Aloft()) && inflight == Lengths(lists)
      modifies this`heads, this`maxInflight, this`buckets
      ensures Valid() && maxInflight == max && heads == hs && nodes == old(nodes)
    {
      hide Ring, Lengths, ServerRing, Up;
      heads, buckets, maxInflight := hs, lists, max;
      forall b ensures BucketOk(b) {
        assert old(HashedAt(lists, hs, Aloft(), b));
        if 0 <= b < |buckets| {
          forall i | 0 <= i < |buckets[b]| ensures Flying(buckets[b][i], b) { assert buckets[b][i] in old(Aloft()); }
        }
      }
      forall r | r in nodes ensures Listed(r) { assert r.ns != null ==> r in old(Aloft()); }
    }

    /** Moving a request in flight leaves the rest alone. */
    method MoveFirstOnly(
        oldHeads: seq<Request?>, b: nat, newHeads: seq<Request?>,
        ghost olds: seq<seq<Request>>, ghost left: set<Request>, ghost news: seq<seq<Request>>,
        ghost moved: set<Request>)
      returns (hs: seq<Request?>, gs: seq<Request?>, ghost os: seq<seq<Request>>, ghost ns: seq<seq<Request>>)
      requires Hashed(olds, oldHeads, left) && Hashed(news, newHeads, moved) && left !! moved
      requires b < |olds| && olds[b] != [] && RestOk() && left + moved == Aloft()
      modifies left`next, left`prev, moved`next, moved`prev
      ensures var req := olds[b][0];
        req in left && Hashed(os, hs, left - {req}) && Hashed(ns, gs, moved + {req})
      ensures os == olds[b := olds[b][1..]] && |ns| == |news| && |hs| == |oldHeads| && |gs| == |newHeads|
      ensures Lengths(ns) == Lengths(news) + 1 && Lengths(os) == Lengths(olds) - 1
      ensures RestOk() && Aloft() == old(Aloft())
    {
      hide Ring, Lengths, Hashed, ServerRing, Up;
      assert forall i | 0 <= i < |queue| :: queue[i] !in Aloft();
      hs, gs, os, ns := MoveFirst(oldHeads, b, newHeads, olds, left, news, moved);
    }

    /** Hashes the requests in flight anew for another number of them. */
    method SetMaxRequestsInflight(max: int)
      requires Valid()
      modifies this`heads, this`maxInflight, this`buckets, nodes`next, nodes`prev
      ensures Valid() && maxInflight == (if max < 1 then 1 else max) && |heads| == (maxInflight + 4) / 5
    {
      hide Ring, Valid, Lengths, Hashed, ServerRing, Up, RestOk;
      var maxinflight := if max < 1 then 1 else max;
      var n := (maxinflight + 4) / 5;
      var hs: seq<Request?>, gs: seq<Request?> := heads, seq(n, _ => null);
      ghost var os: seq<seq<Request>>, ns: seq<seq<Request>> := buckets, seq(n, _ => []);
      ghost var aloft := Aloft();
      ghost var moved: set<Request> := {};
      BucketsHashed();
      RestIsOk();
      EmptyHashed(ns, gs);
      assert aloft - {} == aloft;
      for i := 0 to |heads|
        invariant |hs| == |os| == |heads| && |gs| == |ns| == n && moved <= aloft && RestOk() && heads == old(heads)
          && aloft == Aloft()
        invariant Hashed(os, hs, aloft - moved) && Hashed(ns, gs, moved)
        invariant forall j | 0 <= j < i :: os[j] == []
        invariant Lengths(os) + Lengths(ns) == inflight
      {
        HashedHead(os, hs, aloft - moved, i);
        while hs[i] != null
          invariant |hs| == |os| == |heads| && |gs| == |ns| == n && moved <= aloft && RestOk() && heads == old(heads)
            && aloft == Aloft()
          invariant Hashed(os, hs, aloft - moved) && Hashed(ns, gs, moved)
          invariant forall j | 0 <= j < i :: os[j] == []
          invariant Lengths(os) + Lengths(ns) == inflight
          invariant hs[i] == if os[i] == [] then null else os[i][0]
          decreases |os[i]|
        {
          ghost var req: Request := os[i][0];
          hs, gs, os, ns := MoveFirstOnly(hs, i, gs, os, aloft - moved, ns, moved);
          assert aloft - moved - {req} == aloft - (moved + {req});
          moved := moved + {req};
          HashedHead(os, hs, aloft - moved, i);
        }
      }
      NoneLeft(os, hs, aloft - moved);
      assert moved == aloft;
      Install(gs, maxinflight, ns);
    }

    /** Takes a request back to the front of the queue. */
    method SuspendOne(req: Request)
      requires Ring(queue, waitingHead) && req !in queue
      modifies this`waitingHead, this`waiting, this`queue, req, queue`next, queue`prev
      ensures Ring(queue, waitingHead) && queue == [req] + old(queue) && waiting == old(waiting) + 1
      ensures req.ns == null && req.txCount == 0 && req.reissueCount == 0 && req.transId == 0 && !req.transmitMe
      ensures !req.timer
    {
      req.txCount, req.reissueCount := 0, 0;
      req.ns := null;
      req.timer := false;
      req.transId := 0;
      req.transmitMe := false;
      waiting := waiting + 1;
      waitingHead := RequestInsert(req, waitingHead, queue);
      LastToFront(queue, req, waitingHead);
      waitingHead := waitingHead.prev;
      queue := [req] + queue;
    }

    ghost predicate Still(b: int)
      reads this, nodes
    {
      0 <= b < |buckets| && |heads| == |buckets| ==>
        && (forall i | 0 <= i < |buckets[b]| :: StillAloft(buckets[b][i], b))
        && Ring(buckets[b], heads[b])
    }

    ghost predicate StillAloft(r: Request, b: int)
      reads this, nodes
    {
      r in nodes && r.ns != null && |buckets| > 0 && r.transId % |buckets| == b
    }

    /** The buckets before the i-th have been emptied into the queue. */
    ghost predicate Suspended(i: int)
      reads this, nodes
    {
      && |heads| == |buckets| > 0 && waiting == |queue| && QueueOk()
      && (forall b | i <= b :: Still(b))
      && (forall r <- nodes ::
           if r.ns == null then r in queue else r.transId % |buckets| >= i && r in buckets[r.transId % |buckets|])
    }

    ghost predicate AmongRest(r: Request, i: nat, k: nat)
      requires |buckets| > i
      reads this, r
    {
      var b := r.transId % |buckets|;
      if b == i then InTail(r, buckets[i], k) else b > i && r in buckets[b]
    }

    /** The same in the middle of bucket i, whose first k requests have been taken. */
    ghost predicate SuspendedPart(i: nat, k: nat)
      reads this, nodes
    {
      && |heads| == |buckets| > i && waiting == |queue| && QueueOk() && k <= |buckets[i]|
      && (forall b | i < b :: Still(b))
      && (forall j | k <= j < |buckets[i]| ::
           StillAloft(buckets[i][j], i) && buckets[i][j].next == buckets[i][Succ(|buckets[i]|, j)])
      && (forall r <- nodes :: r.ns == null ==> r in queue)
      && (forall r <- nodes :: r.ns != null ==> AmongRest(r, i, k))
    }

    method SuspendNext(ghost i: nat, ghost k: nat, req: Request)
      requires SuspendedPart(i, k) && k < |buckets[i]| && req == buckets[i][k] && Distinct(buckets[i])
      modifies this`waitingHead, this`waiting, this`queue, nodes
      ensures SuspendedPart(i, k + 1) && queue == [req] + old(queue)
    {
      hide Ring, InTail;
      assert StillAloft(req, i);
      TailNext(buckets[i], k);
      SuspendOne(req);
      forall b | i < b ensures Still(b) {
        assert old(Still(b));
        if b < |buckets| {
          forall j | 0 <= j < |buckets[b]| ensures StillAloft(buckets[b][j], b) {
            assert old(StillAloft(buckets[b][j], b));
          }
        }
      }
      forall j | k < j < |buckets[i]|
        ensures StillAloft(buckets[i][j], i) && buckets[i][j].next == buckets[i][Succ(|buckets[i]|, j)]
      {
        assert old(StillAloft(buckets[i][j], i));
      }
    }

    method SuspendBucket(i: nat)
      requires Suspended(i) && i < |heads|
      modifies this`waitingHead, this`waiting, this`queue, this`heads, nodes
      ensures Suspended(i + 1) && heads == old(heads)[i := null]
      ensures queue == Backwards(buckets[i]) + old(queue)
    {
      hide Ring, Backwards, SuspendedPart;
      ghost var s, was := buckets[i], queue;
      EnterBucket(i);
      var req := heads[i];
      ghost var k := 0;
      BackwardsNext(s, 0);
      assert s[..0] == [] && s[..|s|] == s;
      while req != null
        invariant |heads| == |buckets| > i && heads == old(heads) && buckets[i] == s && k <= |s| && Distinct(s)
        invariant SuspendedPart(i, k) && queue == Backwards(s[..k]) + was
        invariant req == if k < |s| then s[k] else null
        decreases |s| - k
      {
        InBucket(i, k);
        var next := req.next;
        SuspendNext(i, k, req);
        BackwardsNext(s, k);
        k := k + 1;
        if next == heads[i] { break; }
        req := next;
      }
      assert k == |s|;
      LeaveBucket(i);
    }

    lemma EnterBucket(i: nat)
      requires Suspended(i) && i < |buckets|
      ensures |heads| == |buckets| && SuspendedPart(i, 0) && Distinct(buckets[i])
      ensures heads[i] == if buckets[i] == [] then null else buckets[i][0]
    {
      assert Still(i);
      if |buckets[i]| > 0 { TailNext(buckets[i], 0); }
      forall j | 0 <= j < |buckets[i]|
        ensures StillAloft(buckets[i][j], i) && buckets[i][j].next == buckets[i][Succ(|buckets[i]|, j)]
      {
        assert LinkedAt(buckets[i], j);
      }
    }

    lemma InBucket(i: nat, k: nat)
      requires SuspendedPart(i, k) && k < |buckets[i]|
      ensures buckets[i][k].next == buckets[i][Succ(|buckets[i]|, k)] && buckets[i][k] in nodes
    {
      hide Ring;
      assert StillAloft(buckets[i][k], i);
    }

    method LeaveBucket(i: nat)
      requires i < |buckets| && SuspendedPart(i, |buckets[i]|)
      modifies this`heads
      ensures Suspended(i + 1) && heads == old(heads)[i := null]
    {
      hide Ring;
      heads := heads[i := null];
      forall b | i + 1 <= b ensures Still(b) {
        assert old(Still(b));
        if b < |buckets| {
          forall j | 0 <= j < |buckets[b]| ensures StillAloft(buckets[b][j], b) {
            assert old(StillAloft(buckets[b][j], b));
          }
        }
      }
    }

    /** The queue after the requests of the first i buckets have gone back to it. */
    ghost function BackwardsAll(lists: seq<seq<Request>>): seq<Request> {
      if lists == [] then [] else Backwards(lists[|lists| - 1]) + BackwardsAll(lists[..|lists| - 1])
    }

    /** Forgets all nameservers and takes the requests in flight back to the front of the queue. */
    method ClearNameserversAndSuspend()
      requires Valid()
      modifies this`serverHead, this`servers, this`good, this`heads, this`buckets, this`inflight,
        this`waitingHead, this`waiting, this`queue, nodes
      ensures Valid() && nodes == old(nodes) && servers == (if old(servers) == [] then old(servers) else [])
      ensures old(servers) != [] ==> inflight == 0 && queue == BackwardsAll(old(buckets)) + old(queue)
      ensures old(IdsDiffer()) ==> IdsDiffer()
      ensures old(AllHeard(null)) ==> AllHeard(null)
    {
      hide Valid, Ring, Suspended, Backwards, IdsDiffer, AllHeard;
      HeadIsNull();
      if serverHead == null { return; }
      ghost var was := queue;
      ForgetServers();
      for i := 0 to |heads|
        invariant |heads| == |buckets| == |old(buckets)| && buckets == old(buckets) && Suspended(i)
        invariant forall j | 0 <= j < i :: heads[j] == null
        invariant queue == BackwardsAll(buckets[..i]) + was
        invariant serverHead == null && servers == [] && good == 0
      {
        assert buckets[..i + 1][..i] == buckets[..i];
        SuspendBucket(i);
      }
      assert buckets[..|heads|] == buckets;
      AllSuspended();
      NoneAloft();
    }

    lemma NoneAloft()
      requires Valid() && servers == []
      ensures IdsDiffer() && AllHeard(null)
    {
      forall r | r in nodes && r.ns != null ensures false {
        NsListed(r);
        assert false;
      }
    }

    lemma HeadIsNull()
      requires Valid()
      ensures serverHead == null <==> servers == []
    {
    }

    method ForgetServers()
      requires Valid()
      modifies this`serverHead, this`servers, this`good
      ensures Suspended(0) && serverHead == null && servers == [] && good == 0
      ensures |heads| == |buckets|
    {
      hide Ring;
      serverHead, servers, good := null, [], 0;
      forall b | 0 <= b ensures Still(b) {
        assert old(BucketOk(b));
        if b < |buckets| {
          forall j | 0 <= j < |buckets[b]| ensures StillAloft(buckets[b][j], b) {
            assert old(Flying(buckets[b][j], b));
          }
        }
      }
      forall r | r in nodes ensures if r.ns == null then r in queue else r in buckets[r.transId % |buckets|] {
        assert old(Listed(r));
      }
    }

    /** With all requests in the queue, the buckets are empty. */
    method AllSuspended()
      requires |heads| == |buckets| && Suspended(|buckets|) && serverHead == null && servers == [] && good == 0
      requires forall j | 0 <= j < |heads| :: heads[j] == null
      modifies this`buckets, this`inflight
      ensures Valid() && inflight == 0
    {
      hide Lengths;
      ghost var n := |buckets|;
      buckets := seq(n, _ => []);
      inflight := 0;
      EmptyLengths(buckets);
    }

    constructor ()
      ensures Valid() && fresh(this) && nodes == {} && servers == [] && queue == [] && maxInflight == 64
    {
      heads := seq(13, _ => null);
      waitingHead, inflight, waiting, maxInflight, serverHead, good := null, 0, 0, 64, null, 0;
      buckets, queue, nodes, servers := seq(13, _ => []), [], {}, [];
      new;
      EmptyLengths(buckets);
    }

    /** Puts a new nameserver behind the first of the ring. */
    method NameserverAdd() returns (ns: Nameserver)
      requires Valid()
      modifies this`serverHead, this`servers, this`good, Elements(servers)`next
      ensures Valid() && fresh(ns) && ns.up && Elements(servers) == old(Elements(servers)) + {ns}
      ensures forall x <- old(servers) :: x in servers
    {
      ns := new Nameserver();
      AddServer(ns);
      ElementsAre(servers);
      ElementsAre(old(servers));
    }

    method AddServer(ns: Nameserver)
      requires Valid() && ns !in servers && !ns.up
      modifies this`serverHead, this`servers, this`good, Elements(servers)`next, ns
      ensures Valid() && ns.up && Elements(servers) == old(Elements(servers)) + {ns}
    {
      hide Valid, Elements;
      LinkServer(ns);
      ElementsAre(servers);
      SetUp(ns, true);
    }

    method LinkServer(ns: Nameserver)
      requires Valid() && ns !in servers && !ns.up
      modifies this`serverHead, this`servers, Elements(servers)`next, ns`next
      ensures Valid() && Elements(servers) == old(Elements(servers)) + {ns}
    {
      hide Ring, Lengths, ServerRing, Up, Elements;
      ElementsAre(servers);
      serverHead, servers := ServerInsert(ns, serverHead, servers);
      ElementsAre(servers);
      UpSame(old(Elements(servers)), ns);
      assert ServersOk() by {
        assert old(ServersOk());
        assert Up(old(Elements(servers))) == old(Up(Elements(servers)));
      }
      forall c ensures BucketOk(c) {
        assert old(BucketOk(c));
        if 0 <= c < |buckets| {
          forall i | 0 <= i < |buckets[c]| ensures Flying(buckets[c][i], c) { assert old(Flying(buckets[c][i], c)); }
        }
      }
      forall r | r in nodes ensures Listed(r) { assert old(Listed(r)); }
      assert QueueOk() by { assert old(QueueOk()); }
    }

    /** Makes a request; it gets an id and a nameserver right away if there is room in flight. */
    method RequestNew(tries: nat) returns (req: Request?, ghost drawn: seq<nat>)
      requires Valid()
      modifies this`serverHead, this`servers
      ensures Valid() && Elements(servers) == old(Elements(servers))
      ensures req != null ==> fresh(req) && (req.ns != null ==> req.ns in servers && req.transId < NO_ID)
      ensures req != null && req.ns != null ==>
        inflight < maxInflight && forall r <- nodes :: r.ns != null ==> r.transId != req.transId
      ensures req != null ==> (req.ns == null <==> old(inflight >= maxInflight || servers == []))
      ensures req != null ==> req.txCount == 0 && !req.transmitMe && !req.timer
      ensures req != null && inflight >= maxInflight ==> req.transId == NO_ID
      ensures req == null ==> inflight < maxInflight && AllTaken(drawn, tries)
      ensures old(AllHeard(null)) ==> AllHeard(null)
    {
      hide Valid, Elements;
      drawn := [];
      if inflight < maxInflight {
        var ok, id;
        ok, id, drawn := TransactionIdPick(tries);
        if !ok { return null, drawn; }
        var ns := Pick();
        req := new Request(id, ns);
      } else {
        req := new Request(NO_ID, null);
      }
      assert old(servers) != [] ==> old(servers)[0] in servers;
      if old(AllHeard(null)) { HeardKept(null); }
    }

    /** Any sequence of operations, each on any request or nameserver it may be applied to: what has been submitted and
        has not been finished is, all the time, on exactly one list. */
    method Run(script: seq<Op>) returns (submitted: set<Request>, finished: set<Request>)
      requires Valid() && nodes == {} && servers == []
      modifies this
      ensures Valid() && nodes == submitted - finished && finished <= submitted
      ensures IdsDiffer() && AllHeard(null)
    {
      hide Valid, Elements;
      submitted, finished := {}, {};
      var known: set<Nameserver> := {};
      ElementsNone<Nameserver>();
      for i := 0 to |script|
        invariant Valid() && nodes == submitted - finished && finished <= submitted && IdsDiffer()
        invariant AllHeard(null)
        invariant fresh(submitted) && fresh(Elements(servers)) && known == Elements(servers)
      {
        var made, gone;
        ghost var req, ns;
        made, gone, known, req, ns := Exec(script[i], submitted - finished, known);
        if made != null { submitted := submitted + {made}; }
        finished := finished + gone;
      }
    }

    /** One operation.  Returns the request it submits and those that it finishes, all nameservers, and the request or
        the nameserver that it has worked on. */
    method Exec(op: Op, live: set<Request>, known: set<Nameserver>)
      returns (made: Request?, gone: set<Request>, now: set<Nameserver>, ghost who: Request?, ghost which: Nameserver?)
      requires Valid() && live == nodes && known == Elements(servers) && IdsDiffer() && AllHeard(null)
      modifies this, nodes, Elements(servers)
      ensures IdsDiffer() && AllHeard(null)
      ensures Valid() && gone <= old(nodes) && (made != null ==> fresh(made) && gone == {})
      ensures nodes == (if made == null then old(nodes) - gone else old(nodes) + {made})
      ensures now == Elements(servers) && fresh(now - known)
      ensures made != null ==> op.New?
      ensures op.Finish? && live != {} ==> who in live && gone == {who}
      ensures op.Timeout? && (exists r <- live :: old(r.ns) != null && old(r.timer)) ==>
        who in live && gone == if old(who.txCount) >= op.maxRetransmits then {who} else {}
      ensures op.Reissue? && (exists r <- live :: old(r.ns) != null) ==> who in live && who.ns == old(Picked())
      ensures op.SetMax? ==> maxInflight == if op.max < 1 then 1 else op.max
      ensures op.Suspend? ==> servers == []
      ensures op.AddNameserver? ==> which != null && fresh(which) && which.up && now == known + {which}
      ensures op.Fail? && known != {} ==> which in known && !which.up
      ensures op.Recover? && known != {} ==> which in known && which.up
      ensures op.Writable? && known != {} ==> forall r <- nodes :: Tried(r)
    {
      hide Valid, Elements, Heard, SomeChoked, SentNow, AllTaken, Tried, Choked;
      made, gone, now, who, which := null, {}, known, null, null;
      var flying := set r | r in live && r.ns != null;
      ElementsAre(servers);
      match op {
        case New(tries) =>
          ghost var drawn;
          made, drawn := RequestNew(tries);
          if made != null { ghost var outcome := RequestSubmit(made); }
        case Finish(tries) =>
          if live != {} {
            var req :| req in live;
            gone, who := {req}, req;
            var done;
            ghost var drawn;
            done, drawn := RequestFinished(req, tries);
          }
        case Timeout(maxRetransmits, bad, tries) =>
          var late := set r | r in flying && r.timer;
          if late != {} {
            var req :| req in late;
            who := req;
            if req.txCount >= maxRetransmits { gone := {req}; }
            var done;
            ghost var outcome;
            done, outcome := RequestTimeout(req, maxRetransmits, bad, tries);
          }
        case Reissue =>
          if flying != {} {
            var req :| req in flying;
            who := req;
            var failed := RequestReissue(req);
          }
        case SetMax(max) =>
          SetMaxRequestsInflight(max);
          HeardKept(null);
        case Suspend =>
          var some := serverHead != null;
          HeadIsNull();
          ClearNameserversAndSuspend();
          ElementsNone<Nameserver>();
          if some { now := {}; }
        case Resume(tries) =>
          var done;
          ghost var drawn;
          done, drawn := PumpWaitingQueue(tries);
        case AddNameserver =>
          var added := NameserverAdd();
          now, which := known + {added}, added;
          HeardKept(null);
        case Fail =>
          if known != {} {
            var ns :| ns in known;
            which := ns;
            NameserverFailed(ns);
            HeardKept(null);
          }
        case Recover =>
          if known != {} {
            var ns :| ns in known;
            which := ns;
            NameserverUp(ns);
          }
        case Writable =>
          if known != {} {
            var ns :| ns in known;
            which := ns;
            ghost var full := NameserverReady(ns);
          }
      }
    }

    lemma HeadIs()
      requires ServersOk()
      ensures serverHead == if servers == [] then null else servers[0]
    {
    }

    lemma SomeUp()
      requires ServersOk() && good != 0
      ensures exists i :: 0 <= i < |servers| && servers[i].up
    {
      var n :| n in Up(Elements(servers));
    }

    method RotateServers()
      requires ServersOk() && serverHead != null
      modifies this`serverHead, this`servers
      ensures ServersOk() && Elements(servers) == old(Elements(servers))
      ensures servers == Rotated(old(servers), Succ(|old(servers)|, 0))
    {
      ghost var k := Succ(|servers|, 0);
      RotatedRing(servers, serverHead, k, servers[k]);
      serverHead := serverHead.next;
      servers := Rotated(servers, k);
    }
  }

  ghost function Lengths(qs: seq<seq<Request>>): nat {
    if qs == [] then 0 else Lengths(qs[..|qs| - 1]) + |qs[|qs| - 1]|
  }

  lemma {:induction false} LengthsUpdate(qs: seq<seq<Request>>, p: nat, s: seq<Request>)
    requires p < |qs|
    ensures Lengths(qs[p := s]) == Lengths(qs) - |qs[p]| + |s|
  {
    var n := |qs| - 1;
    if p < n {
      assert qs[p := s][..n] == qs[..n][p := s];
      LengthsUpdate(qs[..n], p, s);
    } else {
      assert qs[p := s][..n] == qs[..n];
    }
  }

  lemma ElementsIn<T>(s: seq<T>, k: nat)
    requires k < |s|
    ensures s[k] in Elements(s)
  {
  }

  lemma HeadOf(s: seq<Request>, head: Request?)
    requires Ring(s, head)
    ensures head == if s == [] then null else s[0]
  {
  }

  lemma {:induction false} EmptyLengths(qs: seq<seq<Request>>)
    requires forall p | 0 <= p < |qs| :: qs[p] == []
    ensures Lengths(qs) == 0
  {
    if qs != [] { EmptyLengths(qs[..|qs| - 1]); }
  }

  /** A circular list with its last element in front. */
  lemma LastToFront(s: seq<Request>, r: Request, head: Request?)
    requires Ring(s + [r], head)
    ensures head != null && Ring([r] + s, head.prev)
  {
    var t, u := s + [r], [r] + s;
    assert LinkedAt(t, 0);
    forall i ensures LinkedAt(u, i) {
      assert LinkedAt(t, if i == 0 then |s| else i - 1);
    }
    forall i, j | 0 <= i < j < |u| ensures u[i] != u[j] {
      assert t[if i == 0 then |s| else i - 1] != t[j - 1];
    }
  }

  /** A list in reverse order. */
  ghost function Backwards(s: seq<Request>): seq<Request> {
    if s == [] then [] else [s[|s| - 1]] + Backwards(s[..|s| - 1])
  }

  ghost predicate InTail(r: Request, s: seq<Request>, k: nat) {
    exists j | k <= j < |s| :: s[j] == r
  }

  lemma TailNext(s: seq<Request>, k: nat)
    requires k < |s|
    ensures forall r :: InTail(r, s, k) ==> r == s[k] || InTail(r, s, k + 1)
    ensures forall r <- s :: InTail(r, s, 0)
    ensures forall r :: !InTail(r, s, |s|)
  {
  }

  lemma BackwardsNext(s: seq<Request>, k: nat)
    ensures Backwards([]) == [] && (k < |s| ==> Backwards(s[..k + 1]) == [s[k]] + Backwards(s[..k]))
  {
    if k < |s| { assert s[..k + 1][..k] == s[..k]; }
  }

  lemma ElementsAre<T>(s: seq<T>)
    ensures forall x :: x in Elements(s) <==> x in s
  {
  }

  lemma ElementsNone<T>()
    ensures Elements<T>([]) == {}
  {
  }

  lemma UpSame(s: set<Nameserver>, ns: Nameserver)
    requires !ns.up
    ensures Up(s + {ns}) == Up(s)
  {
  }

  lemma CutFirst(s: seq<Request>)
    requires s != []
    ensures Cut(s, 0) == s[1..]
  {
  }

  lemma InElements<T>(s: seq<T>, x: T)
    requires x in s
    ensures x in Elements(s)
  {
  }

  lemma ElementsSame<T>(s: seq<T>, t: seq<T>)
    requires Elements(s) == Elements(t)
    ensures forall x :: x in s <==> x in t
  {
    assert forall x :: x in s <==> x in Elements(s);
  }

  lemma RotatedNext<T>(s: seq<T>, k: nat)
    requires k < |s|
    ensures Rotated(Rotated(s, k), Succ(|s|, 0)) == Rotated(s, Succ(|s|, k))
  {
    if k + 1 == |s| {
      assert Rotated(s, k)[1..] == s[..k];
    }
  }
}
