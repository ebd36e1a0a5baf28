/** The contact-form gate (`handleContact`): three validation checks in a
    fixed order, a rate-limit lookup keyed by the client's address, the
    rate-limit write, and the hand-off to the email dispatcher. */
module Contact {
  import opened Wrappers
  import opened Email
  import opened Kv

  /** The decoded request body. A field missing from the JSON is modelled as
      the empty string, which JavaScript treats alike (both are falsy). */
  datatype Submission = Submission(name: string, email: string, message: string, website: string)

  /** How a submission ends. */
  datatype Outcome =
    | SpamDetected
    | MissingFields
    | InvalidEmail
    | RateLimited
    | DispatchFailed
    | Sent

  const RateLimitPrefix: string := "ratelimit:"
  /** Bucket shared by every request without a connecting-IP header. */
  const UnknownClient: string := "unknown"
  /** Rate-limit window in seconds (`expirationTtl: 3600`). */
  const WindowSeconds: nat := 3600
  /** The marker stored under the rate-limit key. */
  const Marker: string := "1"

  /** HTTP status of each outcome. */
  function Status(o: Outcome): (code: int)
    ensures code == 200 <==> o == Sent
    ensures o != Sent ==> 400 <= code < 600
    ensures code == 429 <==> o == RateLimited
  {
    match o
    case SpamDetected => 400
    case MissingFields => 400
    case InvalidEmail => 400
    case RateLimited => 429
    case DispatchFailed => 500
    case Sent => 200
  }

  /** The `error` text of the response body; a sent message has none. */
  function ErrorText(o: Outcome): (t: Option<string>)
    ensures t.None? <==> o == Sent
    ensures t.Some? ==> t.value != ""
  {
    match o
    case SpamDetected => Some("Spam detected")
    case MissingFields => Some("Missing required fields")
    case InvalidEmail => Some("Invalid email address")
    case RateLimited => Some("Too many requests. Please try again later.")
    case DispatchFailed => Some("Failed to send email")
    case Sent => None
  }

  /** The client identifier: the `CF-Connecting-IP` header, or "unknown"
      when it is absent or empty. */
  function ClientId(header: Option<string>): (id: string)
    ensures id != ""
    ensures id == UnknownClient || header == Some(id)
    ensures header.Some? && header.value != "" ==> id == header.value
  {
    if header.Some? && header.value != "" then header.value else UnknownClient
  }

  /** The rate-limit key: `ratelimit:` followed by the client identifier. */
  function RateLimitKey(client: string): (key: string)
    ensures |key| == |RateLimitPrefix| + |client|
    ensures key[..|RateLimitPrefix|] == RateLimitPrefix
  {
    RateLimitPrefix + client
  }

  /** The three validation checks, first failing one wins; None when the
      submission passes all three. */
  function Screen(sub: Submission): (r: Option<Outcome>)
    ensures r.None? <==> sub.website == "" && sub.name != "" && sub.email != "" && sub.message != "" &&
                         IsValidEmail(sub.email)
    ensures r.Some? ==> Status(r.value) == 400
  {
    if sub.website != "" then Some(SpamDetected)
    else if sub.name == "" || sub.email == "" || sub.message == "" then Some(MissingFields)
    else if !IsValidEmail(sub.email) then Some(InvalidEmail)
    else None
  }

  /** A live, truthy value is stored under the client's rate-limit key. */
  predicate Throttled(m: Entries, client: string, now: int): (b: bool)
    ensures b <==> RateLimitKey(client) in m && IsLive(m[RateLimitKey(client)], now) &&
                   m[RateLimitKey(client)].value != Text("")
  {
    var existing := Lookup(m, RateLimitKey(client), now);
    existing.Some? && Truthy(existing.value)
  }

  /** The outcome of one submission against store contents `m`. */
  function ContactOutcome(m: Entries, sub: Submission, header: Option<string>, now: int, dispatched: bool): (o: Outcome)
    ensures Status(o) == 400 <==> Screen(sub).Some?
    ensures o == RateLimited <==> Screen(sub).None? && Throttled(m, ClientId(header), now)
    ensures o == Sent ==> dispatched
  {
    if Screen(sub).Some? then Screen(sub).value
    else if Throttled(m, ClientId(header), now) then RateLimited
    else if dispatched then Sent
    else DispatchFailed
  }

  /** The store contents after one submission. */
  function ContactEntries(m: Entries, sub: Submission, header: Option<string>, now: int): (r: Entries)
    ensures r.Keys <= m.Keys + {RateLimitKey(ClientId(header))}
    ensures forall k :: k in m && k != RateLimitKey(ClientId(header)) ==> k in r && r[k] == m[k]
    ensures Screen(sub).Some? ==> r == m
  {
    if Screen(sub).Some? || Throttled(m, ClientId(header), now) then m
    else m[RateLimitKey(ClientId(header)) := Stamp(Text(Marker), Some(WindowSeconds), now)]
  }

  /** `handleContact`: `dispatched` is whether the email provider accepted
      the message, had it been asked. */
  method HandleContact(store: Store, sub: Submission, header: Option<string>, now: int, dispatched: bool)
    returns (o: Outcome)
    modifies store
    ensures o == ContactOutcome(old(store.entries), sub, header, now, dispatched)
    ensures store.entries == ContactEntries(old(store.entries), sub, header, now)
  {
    var rejected := Screen(sub);
    if rejected.Some? {
      return rejected.value;
    }
    var key := RateLimitKey(ClientId(header));
    var existing := store.Get(key, now);
    if existing.Some? && Truthy(existing.value) {
      return RateLimited;
    }
    store.Put(key, Text(Marker), Some(WindowSeconds), now);
    if dispatched {
      o := Sent;
    } else {
      o := DispatchFailed;
    }
  }

  /** A filled honeypot gives "Spam detected" (400), whatever the other
      fields hold, and leaves the store as it was. */
  lemma HoneypotAlwaysSpam(m: Entries, sub: Submission, header: Option<string>, now: int, dispatched: bool)
    requires sub.website != ""
    ensures ContactOutcome(m, sub, header, now, dispatched) == SpamDetected
    ensures Status(SpamDetected) == 400 && ErrorText(SpamDetected) == Some("Spam detected")
    ensures ContactEntries(m, sub, header, now) == m
  {
  }

  /** With an empty honeypot, an empty name, email or message gives
      "Missing required fields" (400) before the email shape is looked at,
      and leaves the store as it was. */
  lemma MissingFieldsBeforeEmailShape(m: Entries, sub: Submission, header: Option<string>, now: int, dispatched: bool)
    requires sub.website == ""
    requires sub.name == "" || sub.email == "" || sub.message == ""
    ensures ContactOutcome(m, sub, header, now, dispatched) == MissingFields
    ensures Status(MissingFields) == 400
    ensures ContactEntries(m, sub, header, now) == m
  {
  }

  /** With the first two checks passed, an email that does not match the
      pattern gives "Invalid email address" (400) and leaves the store as it
      was. */
  lemma MalformedEmailRejected(m: Entries, sub: Submission, header: Option<string>, now: int, dispatched: bool)
    requires sub.website == "" && sub.name != "" && sub.email != "" && sub.message != ""
    requires !MatchesEmailRegex(sub.email)
    ensures ContactOutcome(m, sub, header, now, dispatched) == InvalidEmail
    ensures Status(InvalidEmail) == 400
    ensures ContactEntries(m, sub, header, now) == m
  {
    EmailCheckIsRegex(sub.email);
  }

  /** A submission from a client whose rate-limit entry is live gives 429
      and leaves the store as it was. */
  lemma ThrottledClientRejected(m: Entries, sub: Submission, header: Option<string>, now: int, dispatched: bool)
    requires Screen(sub).None?
    requires Throttled(m, ClientId(header), now)
    ensures ContactOutcome(m, sub, header, now, dispatched) == RateLimited
    ensures Status(RateLimited) == 429
    ensures ContactEntries(m, sub, header, now) == m
  {
  }

  /** A submission that passes the checks from a client with no live entry
      writes exactly one entry, the marker under `ratelimit:<client>` expiring
      an hour later, before dispatch; the entry stays when dispatch fails
      (500). */
  lemma AcceptedSubmissionArmsWindow(m: Entries, sub: Submission, header: Option<string>, now: int, dispatched: bool)
    requires Screen(sub).None?
    requires !Throttled(m, ClientId(header), now)
    ensures ContactEntries(m, sub, header, now) ==
      m[RateLimitPrefix + ClientId(header) := Entry(Text("1"), Some(now + 3600))]
    ensures ContactOutcome(m, sub, header, now, dispatched) == if dispatched then Sent else DispatchFailed
    ensures !dispatched ==> Status(ContactOutcome(m, sub, header, now, dispatched)) == 500
    ensures Throttled(ContactEntries(m, sub, header, now), ClientId(header), now)
  {
  }

  /** A message is sent exactly when the honeypot is empty, the three fields
      are filled, the email matches the pattern, the client has no live
      entry and the dispatcher succeeds. */
  lemma SentExactlyWhenAllChecksPass(m: Entries, sub: Submission, header: Option<string>, now: int, dispatched: bool)
    ensures ContactOutcome(m, sub, header, now, dispatched) == Sent <==>
      sub.website == "" && sub.name != "" && sub.email != "" && sub.message != "" &&
      MatchesEmailRegex(sub.email) && !Throttled(m, ClientId(header), now) && dispatched
  {
    EmailCheckIsRegex(sub.email);
  }

  /** Two valid submissions from the same client: the second, made before
      the first one's hour is up, is rate-limited whatever became of the
      first one's email; made once the hour is up, it goes through to
      dispatch again. */
  lemma SecondSubmissionWithinWindow(m: Entries, first: Submission, second: Submission,
                                     h1: Option<string>, h2: Option<string>, t1: int, t2: int, dispatched: bool)
    requires Screen(first).None? && Screen(second).None?
    requires ClientId(h1) == ClientId(h2)
    requires !Throttled(m, ClientId(h1), t1)
    requires t1 <= t2
    ensures ContactOutcome(ContactEntries(m, first, h1, t1), second, h2, t2, dispatched) ==
      if t2 < t1 + WindowSeconds then RateLimited
      else if dispatched then Sent else DispatchFailed
  {
  }

  /** Clients with different connecting-IP headers have buckets of their
      own: whatever the first one's submission did, the second one is not
      rate-limited unless its own entry was already live. */
  lemma DistinctClientsKeepOwnWindows(m: Entries, first: Submission, second: Submission,
                                      a: string, b: string, t1: int, t2: int, dispatched: bool)
    requires Screen(second).None?
    requires a != "" && b != "" && a != b
    requires !Throttled(m, b, t2)
    ensures ContactOutcome(ContactEntries(m, first, Some(a), t1), second, Some(b), t2, dispatched) ==
      if dispatched then Sent else DispatchFailed
  {
    assert RateLimitKey(a) != RateLimitKey(b) by {
      assert RateLimitKey(a)[|RateLimitPrefix|..] == a;
      assert RateLimitKey(b)[|RateLimitPrefix|..] == b;
    }
  }

  /** Every client without a usable connecting-IP header falls in the one
      "unknown" bucket, so such clients throttle each other. */
  lemma HeaderlessClientsShareBucket(m: Entries, first: Submission, second: Submission, t1: int, t2: int, dispatched: bool)
    requires Screen(first).None? && Screen(second).None?
    requires !Throttled(m, UnknownClient, t1)
    requires t1 <= t2 < t1 + WindowSeconds
    ensures ContactOutcome(ContactEntries(m, first, None, t1), second, Some(""), t2, dispatched) == RateLimited
  {
  }
}
