/**
 Endpoint and token storage on the device (device_config/device_config.cc): a stored token
 stays with the origin it was bound to, whatever storage operation fails or is cut short.
 */
module DeviceConfig {
  import opened Machine

  /** Parsing of a service URL, as far as it matters here: its origin, or nothing when invalid. */
  type OriginOf = string -> Option<string>

  /** The three stored keys. */
  datatype Store = Store(url: Option<string>, token: Option<string>, tokenOrigin: Option<string>)

  /**
   What becomes of one storage operation: it works, or the call ends there (an error, or
   the power going out), with the operation applied or not.
   */
  datatype Fate = Works | Breaks(applied: bool)

  /** The fate of the i-th storage operation of a call. */
  type Fates = nat -> Fate

  predicate Applied(f: Fate) {
    f.Works? || f.applied
  }

  function TextOf(x: Option<string>): string {
    if x.None? then "" else x.value
  }

  /** The store with the origin for which the present token was given to `BindToken`. */
  datatype Device = Device(store: Store, owner: string)

  const EMPTY := Device(Store(None, None, None), "")

  function EraseToken(d: Device, f: Fate): Device {
    if Applied(f) then d.(store := d.store.(token := None)) else d
  }

  function EraseTokenOrigin(d: Device, f: Fate): Device {
    if Applied(f) then d.(store := d.store.(tokenOrigin := None)) else d
  }

  function WriteUrl(d: Device, url: string, f: Fate): Device {
    if Applied(f) then d.(store := d.store.(url := Some(url))) else d
  }

  function WriteTokenOrigin(d: Device, origin: string, f: Fate): Device {
    if Applied(f) then d.(store := d.store.(tokenOrigin := Some(origin))) else d
  }

  function WriteToken(d: Device, token: string, origin: string, f: Fate): Device {
    if Applied(f) then Device(d.store.(token := Some(token)), origin) else d
  }

  /** Whether saving this origin must drop the stored token. */
  predicate OriginChanges(s: Store, parse: OriginOf, origin: string) {
    match parse(TextOf(s.url))
    case Some(previous) => previous != origin
    case None => TextOf(s.tokenOrigin) != origin
  }

  function SaveEndpoint(d: Device, parse: OriginOf, url: string, fates: Fates): Device {
    if parse(url).None? || !fates(0).Works? || !fates(1).Works? then d
    else if !OriginChanges(d.store, parse, parse(url).value) then WriteUrl(d, url, fates(4))
    else
      var a := EraseToken(d, fates(2));
      if !fates(2).Works? then a
      else
        var b := EraseTokenOrigin(a, fates(3));
        if !fates(3).Works? then b else WriteUrl(b, url, fates(4))
  }

  function BindToken(d: Device, parse: OriginOf, url: string, token: string, fates: Fates): Device {
    if token == "" || parse(url).None? then d
    else
      var a := EraseToken(d, fates(0));
      if !fates(0).Works? then a
      else
        var b := WriteTokenOrigin(a, parse(url).value, fates(1));
        if !fates(1).Works? then b else WriteToken(b, token, parse(url).value, fates(2))
  }

  // ---- Resolution ------------------------------------------------------------------------------

  datatype Candidate = Candidate(url: string, token: string, tokenOrigin: string)

  datatype Snapshot = Snapshot(url: string, origin: string, token: string, saved: bool)

  function ResolveCandidate(c: Candidate, parse: OriginOf, saved: bool): Option<Snapshot> {
    match parse(c.url)
    case None => None
    case Some(origin) => Some(Snapshot(c.url, origin, if c.token != "" && c.tokenOrigin == origin then c.token else "", saved))
  }

  /** The first provisioned token for this origin, empty if there is none. */
  function FallbackToken(provisioned: seq<Candidate>, parse: OriginOf, origin: string): string {
    if provisioned == [] then ""
    else
      var r := ResolveCandidate(provisioned[0], parse, false);
      if r.Some? && r.value.origin == origin && r.value.token != "" then r.value.token
      else FallbackToken(provisioned[1..], parse, origin)
  }

  function FirstProvisioned(provisioned: seq<Candidate>, parse: OriginOf): Option<Snapshot> {
    if provisioned == [] then None
    else
      var r := ResolveCandidate(provisioned[0], parse, false);
      if r.Some? then r else FirstProvisioned(provisioned[1..], parse)
  }

  /** The saved endpoint with its own or a provisioned token of the same origin. */
  function ResolveSaved(s: Store, parse: OriginOf, provisioned: seq<Candidate>): Option<Snapshot> {
    if TextOf(s.url) == "" then None
    else
      match ResolveCandidate(Candidate(TextOf(s.url), TextOf(s.token), TextOf(s.tokenOrigin)), parse, true)
      case None => None
      case Some(r) =>
        var filled := if r.token == "" then r.(token := FallbackToken(provisioned, parse, r.origin)) else r;
        if filled.token != "" || provisioned == [] then Some(filled) else None
  }

  /** Read failures end the call without an endpoint. */
  function ResolveEndpoint(s: Store, parse: OriginOf, provisioned: seq<Candidate>, fates: Fates): Option<Snapshot> {
    if !fates(0).Works? || (TextOf(s.url) != "" && !(fates(1).Works? && fates(2).Works?)) then None
    else
      var saved := ResolveSaved(s, parse, provisioned);
      if saved.Some? then saved else FirstProvisioned(provisioned, parse)
  }

  // ---- Histories -------------------------------------------------------------------------------

  datatype Call =
    | CallSave(url: string, fates: Fates)
    | CallBind(url: string, token: string, fates: Fates)

  function Apply(d: Device, parse: OriginOf, c: Call): Device {
    match c
    case CallSave(url, fates) => SaveEndpoint(d, parse, url, fates)
    case CallBind(url, token, fates) => BindToken(d, parse, url, token, fates)
  }

  function ApplyAll(d: Device, parse: OriginOf, calls: seq<Call>): Device
    decreases |calls|
  {
    if calls == [] then d else ApplyAll(Apply(d, parse, calls[0]), parse, calls[1..])
  }

  /** A stored token is present only together with the origin it was bound to. */
  predicate Bound(d: Device) {
    d.store.token.Some? ==> d.store.tokenOrigin == Some(d.owner)
  }

  lemma SaveKeepsBound(d: Device, parse: OriginOf, url: string, fates: Fates)
    requires Bound(d)
    ensures Bound(SaveEndpoint(d, parse, url, fates))
  {
  }

  lemma BindKeepsBound(d: Device, parse: OriginOf, url: string, token: string, fates: Fates)
    requires Bound(d)
    ensures Bound(BindToken(d, parse, url, token, fates))
  {
  }

  lemma {:induction false} HistoryKeepsBound(d: Device, parse: OriginOf, calls: seq<Call>)
    requires Bound(d)
    ensures Bound(ApplyAll(d, parse, calls))
    decreases |calls|
  {
    if calls != [] {
      match calls[0] {
        case CallSave(url, fates) => SaveKeepsBound(d, parse, url, fates);
        case CallBind(url, token, fates) => BindKeepsBound(d, parse, url, token, fates);
      }
      HistoryKeepsBound(Apply(d, parse, calls[0]), parse, calls[1..]);
    }
  }

  /** A provisioned candidate gives this token for this origin. */
  predicate ProvisionedFor(provisioned: seq<Candidate>, token: string, origin: string) {
    exists c :: c in provisioned && c.token == token && c.tokenOrigin == origin
  }

  lemma {:induction false} FallbackBelongs(provisioned: seq<Candidate>, parse: OriginOf, origin: string)
    ensures var t := FallbackToken(provisioned, parse, origin); t != "" ==> ProvisionedFor(provisioned, t, origin)
  {
    if provisioned != [] {
      FallbackBelongs(provisioned[1..], parse, origin);
      assert provisioned[0] in provisioned;
      assert forall c :: c in provisioned[1..] ==> c in provisioned;
    }
  }

  lemma {:induction false} FirstBelongs(provisioned: seq<Candidate>, parse: OriginOf)
    ensures var r := FirstProvisioned(provisioned, parse);
            r.Some? && r.value.token != "" ==> ProvisionedFor(provisioned, r.value.token, r.value.origin)
  {
    if provisioned != [] {
      FirstBelongs(provisioned[1..], parse);
      assert provisioned[0] in provisioned;
      assert forall c :: c in provisioned[1..] ==> c in provisioned;
    }
  }

  /**
   After every history of saves and binds, each cut short or failing anywhere, a token
   returned by resolution belongs to the returned origin: it is the stored token and was
   bound to that origin, or it was provisioned for that origin.
   */
  lemma ResolvedTokenBelongsToOrigin(parse: OriginOf, calls: seq<Call>, provisioned: seq<Candidate>, fates: Fates)
    ensures var d := ApplyAll(EMPTY, parse, calls);
            var r := ResolveEndpoint(d.store, parse, provisioned, fates);
            r.Some? && r.value.token != "" ==>
              || (d.store.token == Some(r.value.token) && d.owner == r.value.origin)
              || ProvisionedFor(provisioned, r.value.token, r.value.origin)
  {
    HistoryKeepsBound(EMPTY, parse, calls);
    FirstBelongs(provisioned, parse);
    var d := ApplyAll(EMPTY, parse, calls);
    if parse(TextOf(d.store.url)).Some? {
      FallbackBelongs(provisioned, parse, parse(TextOf(d.store.url)).value);
    }
  }

  /** When nothing breaks, saving an endpoint and binding a token to it resolves to exactly that. */
  lemma BoundTokenResolves(d: Device, parse: OriginOf, url: string, token: string, provisioned: seq<Candidate>, fates: Fates)
    requires (forall i :: fates(i) == Works) && parse(url).Some? && url != "" && token != ""
    ensures var e := BindToken(SaveEndpoint(d, parse, url, fates), parse, url, token, fates);
            ResolveEndpoint(e.store, parse, provisioned, fates) == Some(Snapshot(url, parse(url).value, token, true))
  {
    assert fates(0) == Works && fates(1) == Works && fates(2) == Works && fates(3) == Works && fates(4) == Works;
  }

  /** Saving another endpoint of the same origin keeps the token, even if the save is cut short. */
  lemma SameOriginKeepsToken(d: Device, parse: OriginOf, url: string, fates: Fates)
    requires parse(url).Some? && parse(url).value == StoredOrigin(d.store, parse)
    ensures var e := SaveEndpoint(d, parse, url, fates); e.store.token == d.store.token && e.store.tokenOrigin == d.store.tokenOrigin
  {
  }

  // ---- Which endpoint is resolved ------------------------------------------------------------------

  /** Candidate k is the first provisioned one with a valid URL. */
  ghost predicate FirstValid(provisioned: seq<Candidate>, parse: OriginOf, k: nat) {
    k < |provisioned| && parse(provisioned[k].url).Some? && forall i :: 0 <= i < k ==> parse(provisioned[i].url).None?
  }

  /** The token provisioned with a candidate, if it is for the candidate's own origin. */
  function OwnToken(c: Candidate, origin: string): string {
    if c.tokenOrigin == origin then c.token else ""
  }

  lemma {:induction false} FirstValidResolves(provisioned: seq<Candidate>, parse: OriginOf, k: nat)
    requires FirstValid(provisioned, parse, k)
    ensures var c := provisioned[k]; var origin := parse(c.url).value;
            FirstProvisioned(provisioned, parse) == Some(Snapshot(c.url, origin, OwnToken(c, origin), false))
    decreases k
  {
    if k > 0 {
      assert parse(provisioned[0].url).None?;
      FirstValidResolves(provisioned[1..], parse, k - 1);
    }
  }

  lemma {:induction false} NoneValidResolves(provisioned: seq<Candidate>, parse: OriginOf)
    requires forall i :: 0 <= i < |provisioned| ==> parse(provisioned[i].url).None?
    ensures FirstProvisioned(provisioned, parse) == None
  {
    if provisioned != [] {
      NoneValidResolves(provisioned[1..], parse);
    }
  }

  /** The candidate carries a token for this origin, and its own URL is of this origin. */
  predicate OffersToken(c: Candidate, parse: OriginOf, origin: string) {
    parse(c.url) == Some(origin) && c.token != "" && c.tokenOrigin == origin
  }

  lemma {:induction false} FallbackIsFirst(provisioned: seq<Candidate>, parse: OriginOf, origin: string, k: nat)
    requires k < |provisioned| && OffersToken(provisioned[k], parse, origin)
    requires forall i :: 0 <= i < k ==> !OffersToken(provisioned[i], parse, origin)
    ensures FallbackToken(provisioned, parse, origin) == provisioned[k].token
    decreases k
  {
    if k > 0 {
      assert !OffersToken(provisioned[0], parse, origin);
      FallbackIsFirst(provisioned[1..], parse, origin, k - 1);
    }
  }

  lemma {:induction false} NoFallback(provisioned: seq<Candidate>, parse: OriginOf, origin: string)
    requires forall i :: 0 <= i < |provisioned| ==> !OffersToken(provisioned[i], parse, origin)
    ensures FallbackToken(provisioned, parse, origin) == ""
  {
    if provisioned != [] {
      NoFallback(provisioned[1..], parse, origin);
    }
  }

  /** A saved endpoint whose token is stored for its own origin is resolved with it. */
  lemma SavedWithToken(s: Store, parse: OriginOf, provisioned: seq<Candidate>, fates: Fates, url: string, token: string)
    requires fates(0).Works? && fates(1).Works? && fates(2).Works?
    requires s.url == Some(url) && url != "" && parse(url).Some? && s.token == Some(token) && token != "" && s.tokenOrigin == parse(url)
    ensures ResolveEndpoint(s, parse, provisioned, fates) == Some(Snapshot(url, parse(url).value, token, true))
  {
  }

  /** Without one it takes the first token provisioned for its origin; if there is none, the first valid provisioned endpoint is used instead. */
  lemma SavedWithoutToken(s: Store, parse: OriginOf, provisioned: seq<Candidate>, fates: Fates, url: string, k: nat)
    requires fates(0).Works? && fates(1).Works? && fates(2).Works?
    requires s.url == Some(url) && url != "" && parse(url).Some?
    requires TextOf(s.token) == "" || TextOf(s.tokenOrigin) != parse(url).value
    ensures var origin := parse(url).value;
            && (k < |provisioned| && OffersToken(provisioned[k], parse, origin) && (forall i :: 0 <= i < k ==> !OffersToken(provisioned[i], parse, origin)) ==>
                  ResolveEndpoint(s, parse, provisioned, fates) == Some(Snapshot(url, origin, provisioned[k].token, true)))
            && (provisioned == [] ==> ResolveEndpoint(s, parse, provisioned, fates) == Some(Snapshot(url, origin, "", true)))
            && (provisioned != [] && (forall i :: 0 <= i < |provisioned| ==> !OffersToken(provisioned[i], parse, origin)) ==>
                  ResolveEndpoint(s, parse, provisioned, fates) == FirstProvisioned(provisioned, parse))
  {
    var origin := parse(url).value;
    if k < |provisioned| && OffersToken(provisioned[k], parse, origin) && forall i :: 0 <= i < k ==> !OffersToken(provisioned[i], parse, origin) {
      FallbackIsFirst(provisioned, parse, origin, k);
    }
    if forall i :: 0 <= i < |provisioned| ==> !OffersToken(provisioned[i], parse, origin) {
      NoFallback(provisioned, parse, origin);
    }
  }

  /** Without a valid saved endpoint the first valid provisioned one is used. */
  lemma NothingSaved(s: Store, parse: OriginOf, provisioned: seq<Candidate>, fates: Fates)
    requires fates(0).Works? && (TextOf(s.url) == "" || (fates(1).Works? && fates(2).Works? && parse(TextOf(s.url)).None?))
    ensures ResolveEndpoint(s, parse, provisioned, fates) == FirstProvisioned(provisioned, parse)
  {
  }

  /** When the saved URL, or the token or origin beside it, cannot be read, nothing is resolved. */
  lemma UnreadableResolvesNothing(s: Store, parse: OriginOf, provisioned: seq<Candidate>, fates: Fates)
    requires !fates(0).Works? || (TextOf(s.url) != "" && (!fates(1).Works? || !fates(2).Works?))
    ensures ResolveEndpoint(s, parse, provisioned, fates).None?
  {
  }

  /** The origin the stored token may be used for: that of the saved endpoint, or else the one it was bound to. */
  function StoredOrigin(s: Store, parse: OriginOf): string {
    if parse(TextOf(s.url)).Some? then parse(TextOf(s.url)).value else TextOf(s.tokenOrigin)
  }

  /** Saving an endpoint of another origin forgets the token before anything else, even when cut short after that. */
  lemma OtherOriginForgetsToken(d: Device, parse: OriginOf, url: string, fates: Fates)
    requires parse(url).Some? && StoredOrigin(d.store, parse) != parse(url).value
    requires fates(0).Works? && fates(1).Works? && fates(2).Works?
    ensures var e := SaveEndpoint(d, parse, url, fates); e.store.token == None && (e.store.url != d.store.url ==> e.store.tokenOrigin == None)
  {
  }

  // ---- The object ------------------------------------------------------------------------------

  /** The store port: each operation meets its fate and reports whether the call may go on. */
  class Config {
    var url: Option<string>
    var token: Option<string>
    var tokenOrigin: Option<string>
    ghost var owner: string

    ghost function Model(): Device
      reads this
    {
      Device(Store(url, token, tokenOrigin), owner)
    }

    constructor ()
      ensures Model() == EMPTY
    {
      url, token, tokenOrigin, owner := None, None, None, "";
    }

    method Erase(isToken: bool, f: Fate) returns (ok: bool)
      modifies this
      ensures ok == f.Works?
      ensures Model() == if isToken then EraseToken(old(Model()), f) else EraseTokenOrigin(old(Model()), f)
    {
      if Applied(f) {
        if isToken {
          token := None;
        } else {
          tokenOrigin := None;
        }
      }
      ok := f.Works?;
    }

    method Save(newUrl: string, parse: OriginOf, fates: Fates) returns (ok: bool)
      modifies this
      ensures Model() == SaveEndpoint(old(Model()), parse, newUrl, fates)
      ensures ok <==> parse(newUrl).Some? && fates(0).Works? && fates(1).Works? && fates(4).Works?
                      && (OriginChanges(old(Model()).store, parse, parse(newUrl).value) ==> fates(2).Works? && fates(3).Works?)
      ensures ok ==> url == Some(newUrl)
    {
      var parsed := parse(newUrl);
      if parsed.None? || !fates(0).Works? || !fates(1).Works? {
        return false;
      }
      var previous := parse(TextOf(url));
      var originChanged := if previous.Some? then previous.value != parsed.value else TextOf(tokenOrigin) != parsed.value;
      if originChanged {
        ok := Erase(true, fates(2));
        if !ok {
          return;
        }
        ok := Erase(false, fates(3));
        if !ok {
          return;
        }
      }
      if Applied(fates(4)) {
        url := Some(newUrl);
      }
      ok := fates(4).Works?;
    }

    method Bind(boundUrl: string, newToken: string, parse: OriginOf, fates: Fates) returns (ok: bool)
      modifies this
      ensures Model() == BindToken(old(Model()), parse, boundUrl, newToken, fates)
      ensures ok <==> newToken != "" && parse(boundUrl).Some? && fates(0).Works? && fates(1).Works? && fates(2).Works?
      ensures ok ==> token == Some(newToken) && tokenOrigin == parse(boundUrl)
    {
      var parsed := parse(boundUrl);
      if newToken == "" || parsed.None? {
        return false;
      }
      ok := Erase(true, fates(0));
      if !ok {
        return;
      }
      if Applied(fates(1)) {
        tokenOrigin := parsed;
      }
      if !fates(1).Works? {
        return false;
      }
      if Applied(fates(2)) {
        token := Some(newToken);
        owner := parsed.value;
      }
      ok := fates(2).Works?;
    }
  }
}
