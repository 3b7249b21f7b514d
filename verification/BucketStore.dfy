/** The buckets of many callers in one store. */
module BucketStore {
  import opened Domain
  import opened TokenBucket
  import opened BucketTraces

  ghost predicate Proper(requests: seq<Request>) {
    forall i :: 0 <= i < |requests| ==> SendablePair(requests[i].ip, requests[i].path)
  }

  /** The limiter's store after the first `n` requests of all callers. */
  function StoreAfter(requests: seq<Request>, n: nat): map<string, Slot>
    requires n <= |requests|
  {
    if n == 0 then map[] else Served(StoreAfter(requests, n - 1), requests[n - 1])
  }

  /** The calls one caller made on one path, in order. */
  function CallsOf(requests: seq<Request>, ip: string, path: string, n: nat): seq<Call>
    requires n <= |requests|
  {
    if n == 0 then []
    else
      CallsOf(requests, ip, path, n - 1) +
      if requests[n - 1].ip == ip && requests[n - 1].path == path then [requests[n - 1].call] else []
  }

  /** The pair's bucket is what its own calls alone would have left. */
  ghost predicate HasOwnBucket(requests: seq<Request>, ip: string, path: string) {
    var own := CallsOf(requests, ip, path, |requests|);
    SlotAt(StoreAfter(requests, |requests|), KeyOf(ip, path)) == Kept(ConfigFor(path), None, own, |own|)
  }

  lemma {:induction false} KeptPrefix(cfg: Config, start: Option<Slot>, calls: seq<Call>, calls': seq<Call>, n: nat)
    requires n <= |calls| && n <= |calls'| && calls[..n] == calls'[..n]
    ensures Kept(cfg, start, calls, n) == Kept(cfg, start, calls', n)
  {
    if n == 0 {
    } else {
      assert calls[..n - 1] == calls[..n][..n - 1] && calls'[..n - 1] == calls'[..n][..n - 1];
      KeptPrefix(cfg, start, calls, calls', n - 1);
      assert calls[n - 1] == calls[..n][n - 1] && calls'[n - 1] == calls'[..n][n - 1];
    }
  }

  lemma OwnCall(before: seq<Call>, c: Call, cfg: Config)
    ensures Kept(cfg, None, before + [c], |before| + 1) == Some(Written(cfg, Kept(cfg, None, before, |before|), c))
  {
    assert (before + [c])[..|before|] == before == before[..|before|];
    KeptPrefix(cfg, None, before + [c], before, |before|);
  }

  /** No request of another pair runs on this pair's key. */
  ghost predicate KeyIsOwn(requests: seq<Request>, ip: string, path: string) {
    forall i :: 0 <= i < |requests| && KeyOf(requests[i].ip, requests[i].path) == KeyOf(ip, path) ==>
      requests[i].ip == ip && requests[i].path == path
  }

  lemma {:induction false} OwnKeyOwnBucket(requests: seq<Request>, n: nat, ip: string, path: string)
    requires n <= |requests| && KeyIsOwn(requests, ip, path)
    ensures var own := CallsOf(requests, ip, path, n);
      SlotAt(StoreAfter(requests, n), KeyOf(ip, path)) == Kept(ConfigFor(path), None, own, |own|)
  {
    if n == 0 {
    } else {
      OwnKeyOwnBucket(requests, n - 1, ip, path);
      var before, own := CallsOf(requests, ip, path, n - 1), CallsOf(requests, ip, path, n);
      var r := requests[n - 1];
      if r.ip == ip && r.path == path {
        OwnCall(before, r.call, ConfigFor(path));
      } else {
        assert own == before;
        assert KeyOf(r.ip, r.path) != KeyOf(ip, path);
      }
    }
  }

  /** However the requests of different callers are mixed, each pair of address and path has a bucket
      of its own, as long as no address holds ":/". */
  lemma BucketsAreIndependent(requests: seq<Request>, ip: string, path: string)
    requires ProperPath(path) && !HasColonSlash(ip)
    requires forall i :: 0 <= i < |requests| ==> ProperPath(requests[i].path) && !HasColonSlash(requests[i].ip)
    ensures HasOwnBucket(requests, ip, path)
  {
    forall i | 0 <= i < |requests| && KeyOf(requests[i].ip, requests[i].path) == KeyOf(ip, path)
      ensures requests[i].ip == ip && requests[i].path == path
    {
      KeysAreDistinct(ip, path, requests[i].ip, requests[i].path);
    }
    OwnKeyOwnBucket(requests, |requests|, ip, path);
  }

  /** One pair has a bucket of its own, whatever else is requested for whatever addresses, if and only
      if neither its address nor its path can be split at a ":/". */
  lemma BucketIsOwnIff(ip: string, path: string)
    requires SendablePair(ip, path)
    ensures (forall requests: seq<Request> :: Proper(requests) ==> HasOwnBucket(requests, ip, path)) <==> !CanSplit(ip, path)
  {
    KeyIsSharedIff(ip, path);
    if KeyIsShared(ip, path) {
      var ip', path' :| SendablePair(ip', path') && !(ip' == ip && path' == path) && KeyOf(ip', path') == KeyOf(ip, path);
      var requests := [Request(ip', path', Call(0.0, 0.0, 1.0))];
      assert Proper(requests);
      assert CallsOf(requests, ip, path, 1) == [];
      assert KeyOf(ip, path) in StoreAfter(requests, 1);
      assert !HasOwnBucket(requests, ip, path);
    } else {
      forall requests: seq<Request> | Proper(requests) ensures HasOwnBucket(requests, ip, path) {
        forall i | 0 <= i < |requests| && KeyOf(requests[i].ip, requests[i].path) == KeyOf(ip, path)
          ensures requests[i].ip == ip && requests[i].path == path
        {
          assert SendablePair(requests[i].ip, requests[i].path);
        }
        OwnKeyOwnBucket(requests, |requests|, ip, path);
      }
    }
  }
}
