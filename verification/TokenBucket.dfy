/** The token-bucket rate limiter: the script, and the keyed store it runs on. */
module TokenBucket {
  import opened Domain

  datatype Config = Config(capacity: real, rate: real)

  datatype Bucket = Bucket(tokens: real, lastRefill: real)

  function Min(a: real, b: real): real { if a <= b then a else b }

  function Max(a: real, b: real): real { if a >= b then a else b }

  function Refill(cfg: Config, seconds: real): real {
    seconds * cfg.rate
  }

  /** The tokens the script finds when it runs at `now`; a missing bucket counts as full. */
  function Level(cfg: Config, b: Option<Bucket>, now: real): real {
    var tokens := if b.Some? then b.value.tokens else cfg.capacity;
    var lastRefill := if b.Some? then b.value.lastRefill else now;
    Min(cfg.capacity, tokens + Refill(cfg, Max(0.0, now - lastRefill)))
  }

  predicate Admits(cfg: Config, b: Option<Bucket>, now: real, cost: real) {
    Level(cfg, b, now) >= cost
  }

  /** The bucket the script writes back, whether it admits the call or not. */
  function Charged(cfg: Config, b: Option<Bucket>, now: real, cost: real): Bucket {
    Bucket(Level(cfg, b, now) - if Admits(cfg, b, now, cost) then cost else 0.0, now)
  }

  // ---------------------------------------------------------------- the stored bucket

  const EXPIRY := 3600.0

  /** A bucket under its key; the server drops it at `expires`. */
  datatype Slot = Slot(bucket: Bucket, expires: real)

  /** One run of the script: the server's clock, the time the caller supplies, and the cost. */
  datatype Call = Call(server: real, now: real, cost: real)

  function Found(slot: Option<Slot>, server: real): Option<Bucket> {
    if slot.Some? && server < slot.value.expires then Some(slot.value.bucket) else None
  }

  predicate Allowed(cfg: Config, slot: Option<Slot>, c: Call) {
    Admits(cfg, Found(slot, c.server), c.now, c.cost)
  }

  function Written(cfg: Config, slot: Option<Slot>, c: Call): Slot {
    Slot(Charged(cfg, Found(slot, c.server), c.now, c.cost), c.server + EXPIRY)
  }

  // ---------------------------------------------------------------- the limiter

  function KeyOf(ip: string, path: string): string { "tb:" + ip + ":" + path }

  const REGISTER := "/api/v1/public/auth/register"
  const LOGIN := "/api/v1/public/auth/login"

  function ConfigFor(path: string): Config {
    if REGISTER <= path then Config(10.0, 10.0 / 60.0)
    else if LOGIN <= path then Config(20.0, 20.0 / 60.0)
    else Config(200.0, 200.0 / 60.0)
  }

  /** Every configured bucket fills within its expiry, sixty times over. */
  lemma ConfiguredBucketsFillInTime(path: string)
    ensures var cfg := ConfigFor(path); cfg.rate > 0.0 && cfg.capacity == Refill(cfg, 60.0) <= Refill(cfg, EXPIRY)
  {
  }

  /** Ten calls a minute for registration, twenty for login, two hundred for every other path. */
  lemma RoutesInNumbers(path: string)
    ensures var cfg := ConfigFor(path); var perMinute := cfg.rate * 60.0;
      if "/api/v1/public/auth/register" <= path then cfg.capacity == 10.0 == perMinute
      else if "/api/v1/public/auth/login" <= path then cfg.capacity == 20.0 == perMinute
      else cfg.capacity == 200.0 == perMinute
  {
  }

  // ---------------------------------------------------------------- addresses and paths

  predicate Blank(c: char) {
    c in {'\t', '\n', '\U{0B}', '\U{0C}', '\r', '\U{1C}', '\U{1D}', '\U{1E}', '\U{1F}', ' ', '\U{85}', '\U{A0}'}
  }

  /** The text without its leading and trailing blanks. */
  function Trimmed(s: string): string {
    if s == "" then "" else if Blank(s[0]) then Trimmed(s[1..])
    else if Blank(s[|s| - 1]) then Trimmed(s[..|s| - 1]) else s
  }

  /** The text up to the first comma. */
  function FirstField(s: string): string {
    if s == "" || s[0] == ',' then "" else [s[0]] + FirstField(s[1..])
  }

  /** The address a request counts for: the first field of the forwarding header, if there is one. */
  function ClientIp(forwarded: string, host: Option<string>): string {
    if forwarded != "" then Trimmed(FirstField(forwarded)) else if host.Some? then host.value else "unknown"
  }

  /** An address that the header can name. */
  predicate Sendable(ip: string) {
    ',' !in ip && (ip == "" || !(Blank(ip[0]) || Blank(ip[|ip| - 1])))
  }

  lemma {:induction false} TrimmedIsTrim(s: string)
    requires ',' !in s
    ensures Sendable(Trimmed(s))
  {
    if s == "" {
    } else if Blank(s[0]) {
      TrimmedIsTrim(s[1..]);
    } else if Blank(s[|s| - 1]) {
      TrimmedIsTrim(s[..|s| - 1]);
    }
  }

  lemma {:induction false} FirstFieldHasNoComma(s: string)
    ensures ',' !in FirstField(s)
    ensures ',' !in s ==> FirstField(s) == s
  {
    if s == "" || s[0] == ',' {
    } else {
      FirstFieldHasNoComma(s[1..]);
      assert s == [s[0]] + s[1..];
    }
  }

  /** The header names exactly the sendable addresses. */
  lemma HeaderNamesSendable(ip: string, host: Option<string>)
    ensures Sendable(ip) <==> exists forwarded :: forwarded != "" && ClientIp(forwarded, host) == ip
  {
    if Sendable(ip) {
      FirstFieldHasNoComma(ip);
      var forwarded := if ip == "" then "," else ip;
      assert ClientIp(forwarded, host) == ip;
    }
    if forwarded :| forwarded != "" && ClientIp(forwarded, host) == ip {
      FirstFieldHasNoComma(forwarded);
      TrimmedIsTrim(FirstField(forwarded));
    }
  }

  ghost predicate AllBlank(s: string) {
    forall i :: 0 <= i < |s| ==> Blank(s[i])
  }

  /** Blanks around an address do not count. */
  lemma {:induction false} TrimmedDropsBlanks(left: string, ip: string, right: string)
    requires AllBlank(left) && AllBlank(right) && (ip == "" || !(Blank(ip[0]) || Blank(ip[|ip| - 1])))
    ensures Trimmed(left + ip + right) == ip
    decreases |left| + |right|
  {
    var s := left + ip + right;
    if left != "" {
      assert s[0] == left[0] && s[1..] == left[1..] + ip + right;
      TrimmedDropsBlanks(left[1..], ip, right);
    } else if right == "" {
      assert s == ip;
    } else if ip == "" {
      assert s == right && s[1..] == "" + "" + right[1..];
      TrimmedDropsBlanks("", "", right[1..]);
    } else {
      var last := |right| - 1;
      assert s[0] == ip[0] && s[|s| - 1] == right[last] && s[..|s| - 1] == left + ip + right[..last];
      TrimmedDropsBlanks(left, ip, right[..last]);
    }
  }

  /** The first address of a list counts; without a header, the peer does. */
  lemma FirstOfManyCounts(ip: string, rest: string, host: Option<string>)
    requires Sendable(ip)
    ensures ClientIp(ip + "," + rest, host) == ip
    ensures ClientIp("", host) == if host.Some? then host.value else "unknown"
  {
    FirstFieldStops(ip, rest);
  }

  lemma {:induction false} FirstFieldStops(a: string, rest: string)
    requires ',' !in a
    ensures FirstField(a + "," + rest) == a
  {
    var s := a + "," + rest;
    if a == "" {
      assert s[0] == ',';
    } else {
      assert s[0] == a[0] && a[0] in a && s[1..] == a[1..] + "," + rest;
      FirstFieldStops(a[1..], rest);
    }
  }

  /** The path of a URL: section 3.3 of RFC 3986. */
  predicate ProperPath(path: string) {
    path != "" && path[0] == '/' && '?' !in path && '#' !in path
  }

  /** Paths that are let through without asking the limiter. */
  predicate Skipped(path: string) {
    path in {"/metrics", "/health", "/docs", "/redoc", "/openapi.json"}
  }

  lemma SkippedHasNoColon(path: string)
    ensures Skipped(path) ==> ':' !in path
  {
  }

  /** A pair that the limiter can be asked about. */
  predicate SendablePair(ip: string, path: string) {
    Sendable(ip) && ProperPath(path) && !Skipped(path)
  }

  // ---------------------------------------------------------------- keys

  predicate ColonSlashAt(s: string, i: int) {
    0 <= i < |s| - 1 && s[i] == ':' && s[i + 1] == '/'
  }

  ghost predicate HasColonSlash(s: string) {
    exists i :: ColonSlashAt(s, i)
  }

  lemma KeyMarks(ip: string, path: string)
    requires ProperPath(path)
    ensures var k := KeyOf(ip, path);
      && k[3..3 + |ip|] == ip && k[4 + |ip|..] == path && ColonSlashAt(k, 3 + |ip|)
      && (forall i :: 0 <= i < |ip| ==> (ColonSlashAt(k, 3 + i) <==> ColonSlashAt(ip, i)))
  {
    var k := KeyOf(ip, path);
    assert k[3..3 + |ip|] == ip && k[4 + |ip|..] == path;
    assert k[4 + |ip|] == path[0];
    forall i | 0 <= i < |ip| ensures ColonSlashAt(k, 3 + i) <==> ColonSlashAt(ip, i) {
      assert k[3 + i] == ip[i];
      if i + 1 < |ip| { assert k[3 + i + 1] == ip[i + 1]; }
    }
  }

  /** Two pairs with one key are the same pair, unless the longer address holds ":/". */
  lemma KeysAreDistinct(ip: string, path: string, ip': string, path': string)
    requires ProperPath(path) && ProperPath(path') && KeyOf(ip, path) == KeyOf(ip', path')
    ensures (ip == ip' && path == path') || HasColonSlash(if |ip| < |ip'| then ip' else ip)
  {
    KeyMarks(ip, path);
    KeyMarks(ip', path');
    if |ip| < |ip'| {
      assert ColonSlashAt(ip', |ip|);
    } else if |ip'| < |ip| {
      assert ColonSlashAt(ip, |ip'|);
    }
  }

  /** At ":/" the split between address and path can be moved, if what is cut off is an address that
      can be sent and what is left is a path. */
  predicate SplitsAddress(ip: string, i: int) {
    ColonSlashAt(ip, i) && Sendable(ip[..i]) && '?' !in ip[i + 1..] && '#' !in ip[i + 1..]
  }

  predicate SplitsPath(ip: string, path: string, i: int) {
    ColonSlashAt(path, i) && SendablePair(ip + ":" + path[..i], path[i + 1..])
  }

  lemma SplitInAddress(ip: string, path: string, i: int)
    requires SplitsAddress(ip, i) && ProperPath(path)
    ensures KeyOf(ip, path) == KeyOf(ip[..i], ip[i + 1..] + ":" + path) && SendablePair(ip[..i], ip[i + 1..] + ":" + path)
  {
    assert ip == ip[..i] + ":" + ip[i + 1..];
    SkippedHasNoColon(ip[i + 1..] + ":" + path);
    assert (ip[i + 1..] + ":" + path)[|ip| - i - 1] == ':';
  }

  lemma SplitInPath(ip: string, path: string, i: int)
    requires SplitsPath(ip, path, i)
    ensures KeyOf(ip, path) == KeyOf(ip + ":" + path[..i], path[i + 1..])
  {
    assert path == path[..i] + ":" + path[i + 1..];
  }

  /** Another pair that the limiter can be asked about has the same key. */
  ghost predicate KeyIsShared(ip: string, path: string) {
    exists ip', path' :: SendablePair(ip', path') && !(ip' == ip && path' == path) && KeyOf(ip', path') == KeyOf(ip, path)
  }

  ghost predicate CanSplit(ip: string, path: string) {
    (exists i :: SplitsAddress(ip, i)) || (exists i :: SplitsPath(ip, path, i))
  }

  /** A pair shares its key with another one if and only if its address or its path can be split at a ":/". */
  lemma KeyIsSharedIff(ip: string, path: string)
    requires ProperPath(path)
    ensures KeyIsShared(ip, path) <==> CanSplit(ip, path)
  {
    if i :| SplitsAddress(ip, i) {
      SplitInAddress(ip, path, i);
      assert ip[..i] != ip;
    } else if i :| SplitsPath(ip, path, i) {
      SplitInPath(ip, path, i);
      assert path[i + 1..] != path;
    } else if KeyIsShared(ip, path) {
      var ip', path' :| SendablePair(ip', path') && !(ip' == ip && path' == path) && KeyOf(ip', path') == KeyOf(ip, path);
      SharedKeySplits(ip, path, ip', path');
    }
  }

  lemma SharedKeySplits(ip: string, path: string, ip': string, path': string)
    requires ProperPath(path) && SendablePair(ip', path') && KeyOf(ip', path') == KeyOf(ip, path)
    requires !(ip' == ip && path' == path)
    ensures CanSplit(ip, path)
  {
    var k, at := KeyOf(ip, path), |ip'|;
    KeyMarks(ip, path);
    KeyMarks(ip', path');
    if at < |ip| {
      assert ip[..at] == k[3..3 + |ip|][..at] == k[3..3 + at] == ip';
      assert path' == k[4 + at..] == ip[at + 1..] + ":" + path;
      forall c | c in ip[at + 1..] ensures c in path' { }
      assert SplitsAddress(ip, at);
    } else {
      assert at > |ip|;
      var i := at - |ip| - 1;
      MarkInPath(ip, path, i);
      assert ip' == k[3..3 + at] == ip + ":" + path[..i];
      assert path' == k[4 + at..] == path[i + 1..];
      assert SplitsPath(ip, path, i);
    }
  }

  /** Past the split, ":/" in the key is ":/" in the path. */
  lemma MarkInPath(ip: string, path: string, i: nat)
    requires ProperPath(path) && ColonSlashAt(KeyOf(ip, path), 4 + |ip| + i)
    ensures ColonSlashAt(path, i)
  {
    var k := KeyOf(ip, path);
    KeyMarks(ip, path);
    assert path[i] == k[4 + |ip| + i] && path[i + 1] == k[5 + |ip| + i];
  }

  /** Without ":/" there is nothing to split. */
  lemma PlainPairsCannotSplit(ip: string, path: string)
    requires !HasColonSlash(ip) && !HasColonSlash(path)
    ensures !CanSplit(ip, path)
  {
  }

  lemma KeyCollision()
    ensures SendablePair("a:/b", "/c") && SendablePair("a", "/b:/c")
    ensures KeyOf("a:/b", "/c") == KeyOf("a", "/b:/c")
  {
    assert "a:/b"[..1] == "a" && "a:/b"[2..] == "/b";
    assert SplitsAddress("a:/b", 1);
    SplitInAddress("a:/b", "/c", 1);
    assert "/b" + ":" + "/c" == "/b:/c";
  }

  function SlotAt(store: map<string, Slot>, key: string): Option<Slot> {
    if key in store then Some(store[key]) else None
  }

  /** One call of one address on one path. */
  datatype Request = Request(ip: string, path: string, call: Call)

  predicate Granted(store: map<string, Slot>, r: Request) {
    Allowed(ConfigFor(r.path), SlotAt(store, KeyOf(r.ip, r.path)), r.call)
  }

  /** The store after one request: only the slot of its key is written. */
  function Served(store: map<string, Slot>, r: Request): map<string, Slot> {
    var key := KeyOf(r.ip, r.path);
    store[key := Written(ConfigFor(r.path), SlotAt(store, key), r.call)]
  }

  class Limiter {
    var store: map<string, Slot>

    constructor ()
      ensures store == map[]
    {
      store := map[];
    }

    method GetConfig(path: string) returns (cfg: Config)
      ensures cfg == ConfigFor(path)
    {
      var routes := [(REGISTER, Config(10.0, 10.0 / 60.0)), (LOGIN, Config(20.0, 20.0 / 60.0)),
                     ("default", Config(200.0, 200.0 / 60.0))];
      assert REGISTER[0] == LOGIN[0] == '/' && "default"[0] == 'd';
      assert routes[0].0 != "default" && routes[1].0 != "default";
      for i := 0 to |routes|
        invariant forall j :: 0 <= j < i && routes[j].0 != "default" ==> !(routes[j].0 <= path)
      {
        if routes[i].0 != "default" && routes[i].0 <= path {
          return routes[i].1;
        }
      }
      return routes[2].1;
    }

    /** Runs the script on the key of this address and path; no other key is read or written. */
    method IsAllowed(server: real, now: real, ip: string, path: string, cost: real) returns (allowed: bool)
      modifies this
      ensures var r := Request(ip, path, Call(server, now, cost));
        allowed == Granted(old(store), r) && store == Served(old(store), r)
    {
      var cfg := GetConfig(path);
      var key := KeyOf(ip, path);
      var tokens, lastRefill := cfg.capacity, now;
      if key in store && server < store[key].expires {
        tokens, lastRefill := store[key].bucket.tokens, store[key].bucket.lastRefill;
      }
      var elapsed := Max(0.0, now - lastRefill);
      var refilled := Min(cfg.capacity, tokens + elapsed * cfg.rate);
      if refilled < cost {
        store := store[key := Slot(Bucket(refilled, now), server + EXPIRY)];
        allowed := false;
      } else {
        store := store[key := Slot(Bucket(refilled - cost, now), server + EXPIRY)];
        allowed := true;
      }
    }
  }
}
