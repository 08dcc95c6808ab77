/**
 * The HTTP-facing rules of the feed server (server/fetch-news.mjs): the
 * per-IP fixed-window rate limiter, the client address it keys on, and the
 * validation of a newsletter subscription.
 */
module Server {
  import opened Wrappers
  import opened Text

  // ---------------------------------------------------------------------
  // Client address
  // ---------------------------------------------------------------------

  /** The `x-forwarded-for` header as Express hands it over. */
  datatype Forwarded = NoHeader | Single(value: string) | Several(values: seq<string>)

  /** `e` is the first comma-separated entry of `v`, trimmed. */
  ghost predicate FirstEntry(v: string, e: string) {
    exists k: nat ::
      && k <= |v| && ',' !in v[..k] && (k == |v| || v[k] == ',')
      && e == Trim(v[..k])
  }

  /** No usable forwarded-for header: none, an empty string or an empty
      array. */
  predicate NotForwarded(forwarded: Forwarded) {
    forwarded.NoHeader? || (forwarded.Single? && forwarded.value == []) ||
    (forwarded.Several? && forwarded.values == [])
  }

  /** `resolveRequestIp`: the first entry of a forwarded-for list, trimmed;
      the first element of a header array; else the socket address (`ip`,
      then `remote`), else "unknown". */
  function ResolveRequestIp(forwarded: Forwarded, ip: string, remote: string): (r: string)
    ensures forwarded.Single? && forwarded.value != [] ==>
      FirstEntry(forwarded.value, r) && IsTrimmed(r) && ',' !in r
    ensures forwarded.Several? && forwarded.values != [] ==> r == forwarded.values[0]
    ensures NotForwarded(forwarded) && ip != [] ==> r == ip
    ensures NotForwarded(forwarded) && ip == [] && remote != [] ==> r == remote
    ensures NotForwarded(forwarded) && ip == [] && remote == [] ==> r == "unknown"
  {
    if forwarded.Single? && forwarded.value != [] then
      var first := SplitOn(forwarded.value, ',')[0];
      TrimChars(first);
      assert FirstEntry(forwarded.value, Trim(first)) by {
        var k := FirstPiece(forwarded.value, ',');
      }
      Trim(first)
    else if forwarded.Several? && forwarded.values != [] then forwarded.values[0]
    else if ip != [] then ip
    else if remote != [] then remote
    else "unknown"
  }

  // ---------------------------------------------------------------------
  // Rate limiting
  // ---------------------------------------------------------------------

  /** A client's window: requests counted since `start`. */
  datatype Bucket = Bucket(count: nat, start: int)

  /** The bucket after a request at `now`: a new bucket starts at `now`; a
      bucket whose window has run out restarts at `now` with no requests;
      then the request is counted. */
  function Step(bucket: Option<Bucket>, now: int, windowMs: int): (b: Bucket)
    ensures b.count >= 1
    ensures bucket.Some? && now - bucket.value.start < windowMs ==> b == Bucket(bucket.value.count + 1, bucket.value.start)
    ensures bucket.None? || now - bucket.value.start >= windowMs ==> b.start == now
    ensures bucket.Some? && now - bucket.value.start >= windowMs ==> b.count == 1
  {
    var current := if bucket.Some? then bucket.value else Bucket(0, now);
    var live := if now - current.start >= windowMs then Bucket(0, now) else current;
    Bucket(live.count + 1, live.start)
  }

  /** `createIpRateLimiter`: one bucket per client address. */
  class RateLimiter {
    const windowMs: int
    const max: int
    var buckets: map<string, Bucket>

    constructor(windowMs: int, max: int)
      ensures this.windowMs == windowMs && this.max == max
      ensures buckets == map[]
    {
      this.windowMs := windowMs;
      this.max := max;
      buckets := map[];
    }

    function BucketOf(ip: string): Option<Bucket>
      reads this
    {
      if ip in buckets then Some(buckets[ip]) else None
    }

    /** One request from `ip` at time `now`: the client's bucket is stepped
      and stored, no other bucket changes, and the request is refused (the
      429 answer) exactly when the bucket now counts more than `max`. */
    method Hit(ip: string, now: int) returns (refused: bool)
      modifies this
      ensures buckets == old(buckets)[ip := Step(old(BucketOf(ip)), now, windowMs)]
      ensures forall other :: other != ip ==> BucketOf(other) == old(BucketOf(other))
      ensures refused <==> buckets[ip].count > max
    {
      var bucket := Step(BucketOf(ip), now, windowMs);
      buckets := buckets[ip := bucket];
      refused := bucket.count > max;
    }
  }

  /** The limiter of the admin routes: 5 requests a minute. */
  const AdminWindowMs := 60 * 1000
  const AdminMax := 5

  /** The limiter of the newsletter route: 3 requests in five minutes. */
  const NewsletterWindowMs := 5 * 60 * 1000
  const NewsletterMax := 3

  /** One client's requests at times `times`, from bucket `bucket`: the
      final bucket and how many of the requests were let through. */
  function Replay(bucket: Option<Bucket>, times: seq<int>, windowMs: int, max: int): (r: (Option<Bucket>, nat))
    ensures r.1 <= |times|
    ensures times != [] ==> r.0.Some?
    decreases |times|
  {
    if times == [] then (bucket, 0)
    else
      var b := Step(bucket, times[0], windowMs);
      var rest := Replay(Some(b), times[1..], windowMs, max);
      (rest.0, rest.1 + (if b.count > max then 0 else 1))
  }

  /** Within one window no more than `max` requests of a client get
      through: when every request comes less than `windowMs` after a bucket
      opened at `start` with `count` requests, the bucket ends with `count`
      plus the number of requests, and only the ones that keep it at or
      under `max` pass. */
  lemma {:induction false} OneWindow(count: nat, start: int, times: seq<int>, windowMs: int, max: nat)
    requires forall i :: 0 <= i < |times| ==> times[i] - start < windowMs
    ensures Replay(Some(Bucket(count, start)), times, windowMs, max).0 ==
      Some(Bucket(count + |times|, start))
    ensures Replay(Some(Bucket(count, start)), times, windowMs, max).1 ==
      (if count >= max then 0 else if count + |times| <= max then |times| else max - count)
    decreases |times|
  {
    if times != [] {
      OneWindow(count + 1, start, times[1..], windowMs, max);
    }
  }

  /** A fresh client sending requests within one window from its first is
      let through at most `max` times. */
  lemma FreshClientWithinWindow(times: seq<int>, windowMs: int, max: nat)
    requires times != [] && windowMs > 0
    requires forall i :: 0 <= i < |times| ==> times[i] - times[0] < windowMs
    ensures Replay(None, times, windowMs, max).1 == if |times| <= max then |times| else max
  {
    var b := Step(None, times[0], windowMs);
    assert b == Bucket(1, times[0]);
    OneWindow(1, times[0], times[1..], windowMs, max);
  }

  // ---------------------------------------------------------------------
  // Newsletter subscription
  // ---------------------------------------------------------------------

  predicate IsLocalChar(c: char) {
    IsAsciiLetter(c) || IsDigit(c) || c in "._%+-"
  }

  predicate IsDomainChar(c: char) {
    IsAsciiLetter(c) || IsDigit(c) || c == '.' || c == '-'
  }

  /** `[A-Z0-9.-]+\.[A-Z]{2,}` (case-insensitive) matches the whole of `d`. */
  predicate IsEmailDomain(d: string) {
    exists dot :: 0 < dot < |d| - 2 && d[dot] == '.'
      && (forall i :: 0 <= i < dot ==> IsDomainChar(d[i]))
      && (forall i :: dot < i < |d| ==> IsAsciiLetter(d[i]))
  }

  /** `EMAIL_REGEX`, `/^[A-Z0-9._%+-]+@[A-Z0-9.-]+\.[A-Z]{2,}$/i`. */
  predicate IsEmail(s: string) {
    exists at :: 0 < at < |s| && s[at] == '@'
      && (forall i :: 0 <= i < at ==> IsLocalChar(s[i]))
      && IsEmailDomain(s[at + 1..])
  }

  /** `/[\r\n]+/g` replaced by one space. */
  function JoinLines(s: string): (r: string)
    ensures forall i :: 0 <= i < |r| ==> r[i] != '\r' && r[i] != '\n' && (r[i] in s || r[i] == ' ')
    decreases |s|
  {
    if s == [] then []
    else if s[0] == '\r' || s[0] == '\n' then " " + JoinLines(SkipLineBreaks(s[1..]))
    else [s[0]] + JoinLines(s[1..])
  }

  function SkipLineBreaks(s: string): (r: string)
    ensures |r| <= |s| && r == s[|s| - |r|..]
    decreases |s|
  {
    if s != [] && (s[0] == '\r' || s[0] == '\n') then SkipLineBreaks(s[1..]) else s
  }

  predicate IsTagBreaker(c: char) {
    c == '<' || c == '>' || c == '"' || c == '\'' || c == '`'
  }

  /** `sanitizeSourceTag`: line breaks become spaces, markup and quote
      characters go, and the rest is trimmed. */
  function SanitizeSourceTag(value: string): (r: string)
    ensures IsTrimmed(r)
    ensures forall i :: 0 <= i < |r| ==> !IsTagBreaker(r[i]) && r[i] != '\r' && r[i] != '\n'
  {
    var t := RemoveChars(JoinLines(value), IsTagBreaker);
    TagCharsAfterRemoval(value);
    TrimKeeps(t, IsTagChar);
    Trim(t)
  }

  /** Neither a markup or quote character nor a line break. */
  predicate IsTagChar(c: char) {
    !IsTagBreaker(c) && c != '\r' && c != '\n'
  }

  lemma TagCharsAfterRemoval(value: string)
    ensures AllChars(RemoveChars(JoinLines(value), IsTagBreaker), IsTagChar)
  {
    var j := JoinLines(value);
    var t := RemoveChars(j, IsTagBreaker);
    forall i | 0 <= i < |t|
      ensures IsTagChar(t[i])
    {
      var k :| 0 <= k < |j| && j[k] == t[i];
    }
  }

  const MaxEmailLength := 255
  const MinEmailLength := 5
  const SourceTagLimit := 100

  /** A subscription request that passed validation. */
  datatype Subscription = Subscription(email: string, source: Option<string>)

  /** The validation of `POST /api/newsletter/subscribe`: the email (absent
      when not a string) is trimmed and must be there, then lower-cased and
      required to be 5 to 255 characters and to match the email pattern; the
      source tag (absent when not a string) is trimmed, sanitized and cut to
      100 characters, and dropped when that leaves nothing. */
  function ValidateSubscription(email: Option<string>, source: Option<string>): (r: Result<Subscription>)
    ensures r.Failure? <==>
      var e := Lower(Trim(if email.Some? then email.value else ""));
      !(MinEmailLength <= |e| <= MaxEmailLength && IsEmail(e))
    ensures r.Success? ==>
      && r.value.email == Lower(Trim(email.value))
      && IsEmail(r.value.email)
      && r.value.source == SourceTag(source)
  {
    var raw := Trim(if email.Some? then email.value else "");
    if raw == [] then Failure("Email is required.")
    else
      var e := Lower(raw);
      if |e| < MinEmailLength || |e| > MaxEmailLength || !IsEmail(e) then
        Failure("Please provide a valid email address.")
      else
        Success(Subscription(e, SourceTag(source)))
  }

  /** The stored source tag: the trimmed tag sanitized and cut to 100
      characters, or null when that leaves nothing. */
  function SourceTag(source: Option<string>): (tag: Option<string>)
    ensures tag.Some? ==>
      && tag.value != [] && |tag.value| <= SourceTagLimit
      && forall i :: 0 <= i < |tag.value| ==> !IsTagBreaker(tag.value[i]) && tag.value[i] != '\r' && tag.value[i] != '\n'
    ensures source.None? || Trim(source.value) == [] ==> tag.None?
  {
    var rawSource := Trim(if source.Some? then source.value else "");
    if rawSource == [] then None
    else
      var clean := SanitizeSourceTag(rawSource);
      assert AllChars(clean, IsTagChar);
      PrefixKeeps(clean, SourceTagLimit, IsTagChar);
      var cut := Prefix(clean, SourceTagLimit);
      if cut != [] then Some(cut) else None
  }

  /** An empty or blank email is refused as missing rather than as
      malformed. */
  lemma MissingEmail(email: Option<string>, source: Option<string>)
    requires email.None? || Trim(email.value) == []
    ensures ValidateSubscription(email, source) == Failure("Email is required.")
  {
  }
}
