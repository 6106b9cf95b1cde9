/** The session-token helpers (src/utils/jwtUtils.ts): splitting a token in the JWS compact
    serialization (section 7.1 of RFC 7515), turning its base64url payload into the base64
    alphabet (sections 5 and 4 of RFC 4648), the `exp` expiry test (section 4.1.4 of
    RFC 7519), the host-role test, and the eviction of an expired token from the store.

    `atob` followed by `JSON.parse` is the parameter `decode`, a partial decoder that yields
    the payload's claims or `None` when either step throws. No signature is checked. */
module JwtUtils {
  import opened Wrappers
  import Text
  import LocalStorage

  /** The JSON values a claim can hold, enough to model JavaScript truthiness and `typeof`. */
  datatype ClaimValue =
    | Null
    | Bool(b: bool)
    | Num(n: int)
    | Str(s: string)
    | Arr(items: seq<ClaimValue>)
    | Obj

  /** JavaScript truthiness of a present claim value. */
  predicate Truthy(v: ClaimValue) {
    match v
    case Null => false
    case Bool(b) => b
    case Num(n) => n != 0
    case Str(s) => s != ""
    case _ => true
  }

  /** The claims the helpers read; a missing claim (`undefined`) is `None`. */
  datatype Claims = Claims(
    exp: Option<int>,
    role: Option<ClaimValue>,
    roles: Option<ClaimValue>,
    authorities: Option<ClaimValue>,
    authority: Option<ClaimValue>,
    permissions: Option<ClaimValue>,
    isHost: Option<ClaimValue>)

  /** `atob` then `JSON.parse`: `None` when either throws or the payload is falsy. */
  type Decoder = string -> Option<Claims>

  // ---------------------------------------------------------------------------------------
  // Segments
  // ---------------------------------------------------------------------------------------

  function CountChar(s: string, c: char): (n: nat)
    ensures c !in s ==> n == 0
  {
    if |s| == 0 then 0 else (if s[0] == c then 1 else 0) + CountChar(s[1..], c)
  }

  /** `s.split(sep)` for a one-character separator. */
  function Split(s: string, sep: char): (parts: seq<string>)
    ensures |parts| >= 1
  {
    if |s| == 0 then [""]
    else
      var rest := Split(s[1..], sep);
      if s[0] == sep then [""] + rest else [[s[0]] + rest[0]] + rest[1..]
  }

  /** `parts.join(sep)`. */
  function JoinWith(parts: seq<string>, sep: char): string
    requires |parts| >= 1
  {
    if |parts| == 1 then parts[0] else parts[0] + [sep] + JoinWith(parts[1..], sep)
  }

  /** Splitting yields one more segment than there are separators, no segment holds the
      separator, and joining the segments back gives the token. */
  lemma SplitProperties(s: string, sep: char)
    ensures |Split(s, sep)| == CountChar(s, sep) + 1
    ensures forall i :: 0 <= i < |Split(s, sep)| ==> sep !in Split(s, sep)[i]
    ensures JoinWith(Split(s, sep), sep) == s
  {
    SplitCount(s, sep);
    SplitSegmentsClean(s, sep);
    SplitJoin(s, sep);
  }

  lemma {:induction false} SplitCount(s: string, sep: char)
    ensures |Split(s, sep)| == CountChar(s, sep) + 1
  {
    if |s| > 0 {
      SplitCount(s[1..], sep);
    }
  }

  lemma {:induction false} SplitSegmentsClean(s: string, sep: char)
    ensures forall i :: 0 <= i < |Split(s, sep)| ==> sep !in Split(s, sep)[i]
  {
    if |s| > 0 {
      SplitSegmentsClean(s[1..], sep);
      var rest := Split(s[1..], sep);
      var parts := Split(s, sep);
      if s[0] == sep {
        assert parts[1..] == rest;
      } else {
        assert parts[1..] == rest[1..];
        assert sep !in [s[0]] + rest[0];
      }
    }
  }

  lemma {:induction false} SplitJoin(s: string, sep: char)
    ensures JoinWith(Split(s, sep), sep) == s
  {
    if |s| > 0 {
      SplitJoin(s[1..], sep);
      var rest := Split(s[1..], sep);
      if s[0] == sep {
        assert Split(s, sep)[1..] == rest;
      } else {
        var parts := Split(s, sep);
        assert parts[1..] == rest[1..];
        if |rest| == 1 {
          assert JoinWith(parts, sep) == [s[0]] + rest[0];
        } else {
          assert JoinWith(parts, sep) == [s[0]] + rest[0] + [sep] + JoinWith(rest[1..], sep);
        }
        assert s == [s[0]] + s[1..];
      }
    }
  }

  // ---------------------------------------------------------------------------------------
  // Base64url to base64
  // ---------------------------------------------------------------------------------------

  /** `s.replace(/from/g, to)`. */
  function ReplaceAll(s: string, from: char, to: char): (r: string)
    ensures |r| == |s|
    ensures forall i :: 0 <= i < |s| ==> r[i] == if s[i] == from then to else s[i]
  {
    seq(|s|, i requires 0 <= i < |s| => if s[i] == from then to else s[i])
  }

  /** The character of the base64 alphabet that stands where `c` stands in base64url. */
  function Base64Char(c: char): char {
    if c == '-' then '+' else if c == '_' then '/' else c
  }

  /** `payload.replace(/-/g, '+').replace(/_/g, '/')`. */
  function ToBase64Alphabet(payload: string): (r: string)
    ensures |r| == |payload|
    ensures forall i :: 0 <= i < |payload| ==> r[i] == Base64Char(payload[i])
    ensures '-' !in r && '_' !in r
  {
    ReplaceAll(ReplaceAll(payload, '-', '+'), '_', '/')
  }

  /** The rewrite is idempotent and leaves a string without '-' and '_' as it is. */
  lemma ToBase64AlphabetFixes(payload: string)
    ensures ToBase64Alphabet(ToBase64Alphabet(payload)) == ToBase64Alphabet(payload)
    ensures '-' !in payload && '_' !in payload ==> ToBase64Alphabet(payload) == payload
  {
  }

  // ---------------------------------------------------------------------------------------
  // Decoding and expiry
  // ---------------------------------------------------------------------------------------

  /** `decodeJWT(token)`. */
  function DecodeJwt(token: string, decode: Decoder): (r: Option<Claims>)
  {
    var parts := Split(token, '.');
    if |parts| != 3 then None
    else decode(ToBase64Alphabet(parts[1]))
  }

  /** A payload is only ever obtained from a token with exactly two dots, by decoding its
      middle segment in the base64 alphabet. */
  lemma DecodeJwtSegments(token: string, decode: Decoder)
    ensures CountChar(token, '.') != 2 ==> DecodeJwt(token, decode) == None
    ensures CountChar(token, '.') == 2 ==>
      var parts := Split(token, '.');
      |parts| == 3 && '.' !in parts[1] && DecodeJwt(token, decode) == decode(ToBase64Alphabet(parts[1]))
  {
    SplitProperties(token, '.');
  }

  /** `!payload.exp`: the claim is missing or zero. */
  predicate ExpFalsy(c: Claims) {
    c.exp.None? || c.exp.value == 0
  }

  /** `Math.floor(now / 1000)` for a clock reading `now` in milliseconds. */
  function Seconds(now: int): int {
    now / 1000
  }

  /** `isTokenExpired(token)` at clock reading `now`. */
  predicate IsTokenExpired(token: string, now: int, decode: Decoder) {
    var payload := DecodeJwt(token, decode);
    if payload.None? || ExpFalsy(payload.value) then true
    else payload.value.exp.value < Seconds(now)
  }

  /** Fails closed: a token is live exactly when it decodes, carries a non-zero `exp`, and that
      second has not passed (a token whose `exp` is the current second is still live). */
  lemma TokenLiveness(token: string, now: int, decode: Decoder)
    ensures !IsTokenExpired(token, now, decode) <==>
      var payload := DecodeJwt(token, decode);
      payload.Some? && payload.value.exp.Some? && payload.value.exp.value != 0 &&
      payload.value.exp.value >= Seconds(now)
  {
  }

  /** `getTimeUntilExpiry(token)` at clock reading `now`, in milliseconds. */
  function TimeUntilExpiry(token: string, now: int, decode: Decoder): (ms: int)
    ensures ms >= 0 && ms % 1000 == 0
    ensures ms > 0 ==> !IsTokenExpired(token, now, decode)
  {
    var payload := DecodeJwt(token, decode);
    if payload.None? || ExpFalsy(payload.value) then 0
    else
      var timeUntilExpiry := (payload.value.exp.value - Seconds(now)) * 1000;
      if timeUntilExpiry > 0 then timeUntilExpiry else 0
  }

  /** For a live token the remaining time is the whole seconds to `exp`; it is zero exactly
      when `exp` is the current second. */
  lemma TimeUntilExpiryOfLiveToken(token: string, now: int, decode: Decoder)
    requires !IsTokenExpired(token, now, decode)
    ensures TimeUntilExpiry(token, now, decode) ==
      (DecodeJwt(token, decode).value.exp.value - Seconds(now)) * 1000
    ensures TimeUntilExpiry(token, now, decode) == 0 <==>
      DecodeJwt(token, decode).value.exp.value == Seconds(now)
  {
  }

  /** A token without exactly three segments, such as "abc", is expired and has no time left. */
  lemma MalformedTokenIsExpired(token: string, now: int, decode: Decoder)
    requires '.' !in token
    ensures IsTokenExpired(token, now, decode)
    ensures TimeUntilExpiry(token, now, decode) == 0
  {
    DecodeJwtSegments(token, decode);
  }

  // ---------------------------------------------------------------------------------------
  // Host role
  // ---------------------------------------------------------------------------------------

  /** `if (payload.x) candidates.push(payload.x)` over the five role-bearing claims. */
  function Candidates(c: Claims): seq<ClaimValue> {
    Pushed(c.role) + (Pushed(c.roles) + (Pushed(c.authorities) + (Pushed(c.authority) + Pushed(c.permissions))))
  }

  function Pushed(v: Option<ClaimValue>): seq<ClaimValue> {
    if v.Some? && Truthy(v.value) then [v.value] else []
  }

  /** `.flatMap(v => Array.isArray(v) ? v : [v])`. */
  function Flatten(vs: seq<ClaimValue>): seq<ClaimValue> {
    if |vs| == 0 then []
    else (if vs[0].Arr? then vs[0].items else [vs[0]]) + Flatten(vs[1..])
  }

  /** `.filter(v => typeof v === 'string').map(v => v.toUpperCase())`. */
  function UpperStrings(vs: seq<ClaimValue>): seq<string> {
    if |vs| == 0 then []
    else (if vs[0].Str? then [Text.ToUpper(vs[0].s)] else []) + UpperStrings(vs[1..])
  }

  /** The test applied to each upper-cased role string. */
  predicate HostTest(r: string) {
    r == "HOST" || r == "ROLE_HOST" || Text.Contains(r, "HOST")
  }

  /** The two exact matches are subsumed by the substring test. */
  lemma HostTestIsContains(r: string)
    ensures HostTest(r) <==> Text.Contains(r, "HOST")
  {
    if r == "HOST" {
      Text.ContainsInfix("", "HOST", "");
      assert "" + "HOST" + "" == r;
    } else if r == "ROLE_HOST" {
      Text.ContainsInfix("ROLE_", "HOST", "");
      assert "ROLE_" + "HOST" + "" == r;
    }
  }

  predicate AnyHost(rs: seq<string>) {
    exists i :: 0 <= i < |rs| && HostTest(rs[i])
  }

  /** The host test of the source, on a payload that decoded. */
  predicate HostClaims(c: Claims) {
    AnyHost(UpperStrings(Flatten(Candidates(c)))) || c.isHost == Some(Bool(true))
  }

  /** `isHost(key)` with the store's contents `items` at clock reading `now`. */
  predicate IsHost(items: map<string, string>, key: string, now: int, decode: Decoder) {
    var token := LocalStorage.GetItem(items, key);
    if !LocalStorage.Truthy(token) || IsTokenExpired(token.value, now, decode) then false
    else
      var payload := DecodeJwt(token.value, decode);
      if payload.None? then false
      else HostClaims(payload.value)
  }

  // Reference reading of the role rule, claim by claim.

  /** A string grants the host role when its upper-cased form contains "HOST". */
  predicate HostString(s: string) {
    Text.Contains(Text.ToUpper(s), "HOST")
  }

  /** Element `i` of `vs` is a host string. */
  predicate HostStringAt(vs: seq<ClaimValue>, i: int) {
    0 <= i < |vs| && vs[i].Str? && HostString(vs[i].s)
  }

  /** A claim value grants the host role when it is such a string, or an array holding one. */
  ghost predicate ValueGrantsHost(v: ClaimValue) {
    match v
    case Str(s) => HostString(s)
    case Arr(items) => exists i :: HostStringAt(items, i)
    case _ => false
  }

  ghost predicate GrantsHost(v: Option<ClaimValue>) {
    v.Some? && ValueGrantsHost(v.value)
  }

  ghost predicate HasHostRole(c: Claims) {
    GrantsHost(c.role) || GrantsHost(c.roles) || GrantsHost(c.authorities) ||
    GrantsHost(c.authority) || GrantsHost(c.permissions)
  }

  /** `isHost` is true exactly for a present, live token whose payload names the host role
      in one of the five claims (arrays looked into one level, non-strings ignored), or that
      failing, whose `isHost` claim is the boolean `true`. */
  lemma IsHostMeaning(items: map<string, string>, key: string, now: int, decode: Decoder)
    ensures IsHost(items, key, now, decode) <==>
      key in items && items[key] != "" && !IsTokenExpired(items[key], now, decode) &&
      (HasHostRole(DecodeJwt(items[key], decode).value) ||
       DecodeJwt(items[key], decode).value.isHost == Some(Bool(true)))
  {
    if key in items && items[key] != "" && !IsTokenExpired(items[key], now, decode) {
      var c := DecodeJwt(items[key], decode).value;
      HostPipeline(c);
    }
  }

  /** Element `i` of a candidate list grants the host role. */
  ghost predicate GrantAt(vs: seq<ClaimValue>, i: int) {
    0 <= i < |vs| && ValueGrantsHost(vs[i])
  }

  /** Some element of a candidate list grants the host role. */
  ghost predicate AnyGrant(vs: seq<ClaimValue>) {
    exists i :: GrantAt(vs, i)
  }

  lemma HostPipeline(c: Claims)
    ensures AnyHost(UpperStrings(Flatten(Candidates(c)))) <==> HasHostRole(c)
  {
    assert AnyHost(UpperStrings(Flatten(Candidates(c)))) <==> AnyGrant(Candidates(c)) by {
      FlattenedHost(Candidates(c));
    }
    var p1, p2, p3, p4, p5 := Pushed(c.role), Pushed(c.roles), Pushed(c.authorities),
                              Pushed(c.authority), Pushed(c.permissions);
    assert AnyGrant(p4 + p5) <==> GrantsHost(c.authority) || GrantsHost(c.permissions) by {
      AnyGrantAppend(p4, p5);
      PushedGrant(c.authority);
      PushedGrant(c.permissions);
    }
    assert AnyGrant(p3 + (p4 + p5)) <==> GrantsHost(c.authorities) || AnyGrant(p4 + p5) by {
      AnyGrantAppend(p3, p4 + p5);
      PushedGrant(c.authorities);
    }
    assert AnyGrant(p2 + (p3 + (p4 + p5))) <==> GrantsHost(c.roles) || AnyGrant(p3 + (p4 + p5)) by {
      AnyGrantAppend(p2, p3 + (p4 + p5));
      PushedGrant(c.roles);
    }
    assert AnyGrant(Candidates(c)) <==> GrantsHost(c.role) || AnyGrant(p2 + (p3 + (p4 + p5))) by {
      AnyGrantAppend(p1, p2 + (p3 + (p4 + p5)));
      PushedGrant(c.role);
    }
  }

  /** Pushing only truthy claims loses no grant: a value that grants the role is truthy. */
  lemma PushedGrant(v: Option<ClaimValue>)
    ensures AnyGrant(Pushed(v)) <==> GrantsHost(v)
  {
    if v.Some? && Truthy(v.value) {
      assert GrantAt(Pushed(v), 0) <==> GrantsHost(v);
    } else if v.Some? && v.value.Str? {
      Text.NotContainsWithoutHead("", "HOST");
    }
  }

  lemma AnyGrantAppend(a: seq<ClaimValue>, b: seq<ClaimValue>)
    ensures AnyGrant(a + b) <==> AnyGrant(a) || AnyGrant(b)
  {
    if exists i :: GrantAt(a + b, i) {
      var i :| GrantAt(a + b, i);
      if i < |a| {
        assert GrantAt(a, i);
      } else {
        assert GrantAt(b, i - |a|);
      }
    }
    if exists i :: GrantAt(a, i) {
      var i :| GrantAt(a, i);
      assert GrantAt(a + b, i);
    }
    if exists i :: GrantAt(b, i) {
      var i :| GrantAt(b, i);
      assert GrantAt(a + b, |a| + i);
    }
  }

  /** Flattening one level, keeping strings and upper-casing finds a host string exactly when
      some candidate grants the host role. */
  lemma {:induction false} FlattenedHost(vs: seq<ClaimValue>)
    ensures AnyHost(UpperStrings(Flatten(vs))) <==> AnyGrant(vs)
    decreases |vs|
  {
    if |vs| > 0 {
      FlattenedHost(vs[1..]);
      var head := if vs[0].Arr? then vs[0].items else [vs[0]];
      assert Flatten(vs) == head + Flatten(vs[1..]);
      UpperStringsAppend(head, Flatten(vs[1..]));
      AnyHostAppend(UpperStrings(head), UpperStrings(Flatten(vs[1..])));
      UpperStringsHost(head);
      if vs[0].Str? {
        assert head[0] == vs[0];
        if exists i :: HostStringAt(head, i) {
          var i :| HostStringAt(head, i);
          assert i == 0;
        }
        assert HostString(vs[0].s) ==> HostStringAt(head, 0);
      } else if !vs[0].Arr? {
        assert forall i :: !HostStringAt(head, i);
      }
      assert (exists i :: HostStringAt(head, i)) <==> GrantAt(vs, 0);
      assert vs == [vs[0]] + vs[1..];
      AnyGrantAppend([vs[0]], vs[1..]);
      if GrantAt([vs[0]], 0) {
        assert GrantAt(vs, 0);
      }
      if exists i :: GrantAt([vs[0]], i) {
        var i :| GrantAt([vs[0]], i);
        assert i == 0;
      }
    }
  }

  /** In a flat list, the host test finds a string exactly when some element is a host string. */
  lemma {:induction false} UpperStringsHost(vs: seq<ClaimValue>)
    ensures AnyHost(UpperStrings(vs)) <==> exists i :: HostStringAt(vs, i)
    decreases |vs|
  {
    if |vs| > 0 {
      UpperStringsHost(vs[1..]);
      var head := if vs[0].Str? then [Text.ToUpper(vs[0].s)] else [];
      assert UpperStrings(vs) == head + UpperStrings(vs[1..]);
      AnyHostAppend(head, UpperStrings(vs[1..]));
      if vs[0].Str? {
        HostTestIsContains(Text.ToUpper(vs[0].s));
        assert AnyHost(head) <==> HostStringAt(vs, 0);
      } else {
        assert !AnyHost(head);
      }
      if exists i :: HostStringAt(vs, i) {
        var i :| HostStringAt(vs, i);
        if i > 0 {
          assert HostStringAt(vs[1..], i - 1);
        }
      }
      if exists j :: HostStringAt(vs[1..], j) {
        var j :| HostStringAt(vs[1..], j);
        assert HostStringAt(vs, j + 1);
      }
    }
  }

  lemma {:induction false} UpperStringsAppend(a: seq<ClaimValue>, b: seq<ClaimValue>)
    ensures UpperStrings(a + b) == UpperStrings(a) + UpperStrings(b)
    decreases |a|
  {
    if |a| > 0 {
      assert (a + b)[1..] == a[1..] + b;
      UpperStringsAppend(a[1..], b);
    } else {
      assert a + b == b;
    }
  }

  lemma AnyHostAppend(a: seq<string>, b: seq<string>)
    ensures AnyHost(a + b) <==> AnyHost(a) || AnyHost(b)
  {
    if AnyHost(a + b) {
      var i :| 0 <= i < |a + b| && HostTest((a + b)[i]);
      if i >= |a| {
        assert b[i - |a|] == (a + b)[i];
      }
    }
    if AnyHost(b) {
      var j :| 0 <= j < |b| && HostTest(b[j]);
      assert (a + b)[|a| + j] == b[j];
    }
    if AnyHost(a) {
      var j :| 0 <= j < |a| && HostTest(a[j]);
      assert (a + b)[j] == a[j];
    }
  }

  /** An absent, empty, expired or malformed token is never a host's. */
  lemma NotHostWithoutLiveToken(items: map<string, string>, key: string, now: int, decode: Decoder)
    requires key !in items || items[key] == "" || IsTokenExpired(items[key], now, decode)
    ensures !IsHost(items, key, now, decode)
  {
  }

  // ---------------------------------------------------------------------------------------
  // Eviction
  // ---------------------------------------------------------------------------------------

  /** The store after `removeExpiredToken(key)`. */
  function AfterRemoveExpired(items: map<string, string>, key: string, now: int, decode: Decoder): (r: map<string, string>)
    ensures key !in r <==> key !in items || (items[key] != "" && IsTokenExpired(items[key], now, decode))
    ensures forall k :: k != key ==> (k in r <==> k in items)
    ensures forall k :: k in r ==> k in items && r[k] == items[k]
  {
    var token := LocalStorage.GetItem(items, key);
    if LocalStorage.Truthy(token) && IsTokenExpired(token.value, now, decode) then items - {key}
    else items
  }

  /** A second eviction at the same instant changes nothing. */
  lemma RemoveExpiredIdempotent(items: map<string, string>, key: string, now: int, decode: Decoder)
    ensures AfterRemoveExpired(AfterRemoveExpired(items, key, now, decode), key, now, decode) ==
            AfterRemoveExpired(items, key, now, decode)
  {
  }

  /** `removeExpiredToken(key)` on the shared store. */
  method RemoveExpiredToken(store: LocalStorage.Storage, key: string, now: int, decode: Decoder)
    modifies store
    ensures store.items == AfterRemoveExpired(old(store.items), key, now, decode)
  {
    var token := LocalStorage.GetItem(store.items, key);
    if LocalStorage.Truthy(token) && IsTokenExpired(token.value, now, decode) {
      store.RemoveItem(key);
    }
  }

  /** What `startTokenExpiryMonitor` does: nothing without a token; evict and call back at
      once; or arm a one-shot timer with the given delay. */
  datatype MonitorOutcome = NoToken | EvictedNow | Armed(delayMs: int)

  function MonitorDecision(token: Option<string>, now: int, decode: Decoder): (r: MonitorOutcome)
    ensures r == NoToken <==> !LocalStorage.Truthy(token)
    ensures r.Armed? ==> r.delayMs > 0 && !IsTokenExpired(token.value, now, decode)
    ensures r.Armed? ==> r.delayMs == TimeUntilExpiry(token.value, now, decode)
  {
    if !LocalStorage.Truthy(token) then NoToken
    else if IsTokenExpired(token.value, now, decode) then EvictedNow
    else
      var timeUntilExpiry := TimeUntilExpiry(token.value, now, decode);
      if timeUntilExpiry <= 0 then EvictedNow
      else Armed(timeUntilExpiry)
  }

  /** A present token is evicted at once exactly when it is expired or its `exp` is the
      current second; this second case is a live token that is still evicted. */
  lemma MonitorEvictsDueTokens(token: string, now: int, decode: Decoder)
    requires token != ""
    ensures MonitorDecision(Some(token), now, decode) == EvictedNow <==>
      IsTokenExpired(token, now, decode) || DecodeJwt(token, decode).value.exp.value == Seconds(now)
  {
    if !IsTokenExpired(token, now, decode) {
      TimeUntilExpiryOfLiveToken(token, now, decode);
    }
  }

  /** An armed timer fires no earlier than the expiry instant `exp` seconds and less than a
      second after it, since the delay counts from the start of the current second. */
  lemma ArmedTimerFiresAtExpiry(token: string, now: int, decode: Decoder)
    requires MonitorDecision(Some(token), now, decode).Armed?
    ensures var exp := DecodeJwt(token, decode).value.exp.value;
      var fire := now + MonitorDecision(Some(token), now, decode).delayMs;
      exp * 1000 <= fire < exp * 1000 + 1000
  {
    TimeUntilExpiryOfLiveToken(token, now, decode);
  }

  /** `startTokenExpiryMonitor(onTokenExpired, key)` at clock reading `now`; `EvictedNow` is
      the path that calls `onTokenExpired`. */
  method StartTokenExpiryMonitor(store: LocalStorage.Storage, key: string, now: int, decode: Decoder)
    returns (outcome: MonitorOutcome)
    modifies store
    ensures outcome == MonitorDecision(LocalStorage.GetItem(old(store.items), key), now, decode)
    ensures store.items == if outcome == EvictedNow then old(store.items) - {key} else old(store.items)
  {
    var token := LocalStorage.GetItem(store.items, key);
    if !LocalStorage.Truthy(token) {
      return NoToken;
    }
    if IsTokenExpired(token.value, now, decode) {
      store.RemoveItem(key);
      return EvictedNow;
    }
    var timeUntilExpiry := TimeUntilExpiry(token.value, now, decode);
    if timeUntilExpiry <= 0 {
      store.RemoveItem(key);
      return EvictedNow;
    }
    outcome := Armed(timeUntilExpiry);
  }

  /** The armed timer's callback: removes the key whatever token it holds by then, and calls
      `onTokenExpired`. */
  method ExpiryTimerFired(store: LocalStorage.Storage, key: string)
    modifies store
    ensures store.items == old(store.items) - {key}
  {
    store.RemoveItem(key);
  }
}
