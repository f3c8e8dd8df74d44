/**
 * The lazy content loader of the portfolio page: a container element names
 * the URL of its content in `data-content-url`; the first load fetches it,
 * shows it and marks the element `data-loaded="true"`, while a failed load
 * shows an error paragraph and leaves the element loadable again. The
 * element carries the `loading` class while a fetch is in flight.
 *
 * The fetch is split at its await: `Container.LoadContent` is the part that
 * runs when the loader is called, and `Container.FetchSettled` the part that
 * runs when the fetch settles, with the outcome as a parameter. The element
 * state is also a value, `ElementState`, on which the two halves are the
 * functions `StartLoad` and `Settle`.
 */
module Loader {

  import opened Wrappers


  /** A fetched body: its HTML text and what the page finds in it once it is
      inserted, the `href`s of its lightbox triggers and the ids of its
      project banners. */
  datatype Fragment = Fragment(html: string, lightboxTriggers: seq<string>, detailTriggers: seq<string>)

  /** How a fetch settles: a successful response with its body, a response
      with a non-ok status, or a rejection with its message. */
  datatype FetchOutcome = Ok(body: Fragment) | HttpError(status: nat) | NetworkError(message: string)

  /** A (re)initialisation of click handlers on newly inserted triggers. */
  datatype Rebind = LightboxRebind(hrefs: seq<string>) | DetailRebind(ids: seq<string>)

  /** The part of a container element and of the page the loader touches:
      its two data attributes, its classes, its contents, and the logs of
      requested URLs, handler initialisations and console warnings. */
  datatype ElementState = ElementState(
    contentUrl: Option<string>,
    dataLoaded: Option<string>,
    classes: set<string>,
    innerHTML: string,
    fetches: seq<string>,
    rebinds: seq<Rebind>,
    warnings: seq<string>)

  const LoadingClass: string := "loading"
  const LoadedValue: string := "true"
  const NoContentWarning: string := "No content URL found or already loaded"
  const HttpErrorPrefix: string := "HTTP error! Status: "
  const FailurePrefix: string := "<p style=\"color: red;\">Failed to load content: "
  const FailureSuffix: string := "</p>"
  const MissingDetailsWarning: string := "No details element found with ID: "

  // ---------------------------------------------------------------------
  // Decimal text of a status code

  function DigitChar(d: nat): char
    requires d < 10
  {
    "0123456789"[d]
  }

  function DigitValue(c: char): nat {
    if '0' <= c <= '9' then (c as int - '0' as int) as nat else 0
  }

  lemma DigitRoundTrip(d: nat)
    requires d < 10
    ensures DigitValue(DigitChar(d)) == d
  {
    assert "0123456789"[d] as int == '0' as int + d;
  }

  /** The decimal digits of n, as a number is written in a template string. */
  function NatToString(n: nat): (s: string)
    ensures |s| >= 1
    ensures forall k :: 0 <= k < |s| ==> '0' <= s[k] <= '9'
  {
    if n < 10 then [DigitChar(n)] else NatToString(n / 10) + [DigitChar(n % 10)]
  }

  /** The number a string of decimal digits denotes. */
  function ParseNat(s: string): nat {
    if s == [] then 0 else ParseNat(s[..|s| - 1]) * 10 + DigitValue(s[|s| - 1])
  }

  /** The decimal text of a number denotes that number. */
  lemma {:induction false} ParseNatToString(n: nat)
    ensures ParseNat(NatToString(n)) == n
  {
    var d := n % 10;
    DigitRoundTrip(d);
    if n >= 10 {
      var s := NatToString(n);
      assert s == NatToString(n / 10) + [DigitChar(d)];
      assert s[..|s| - 1] == NatToString(n / 10);
      ParseNatToString(n / 10);
      assert ParseNat(s) == (n / 10) * 10 + d;
    }
  }

  /** The message of the error thrown for a non-ok response. */
  function HttpErrorMessage(status: nat): string {
    HttpErrorPrefix + NatToString(status)
  }

  /** The content shown when a load fails. */
  function FailureParagraph(message: string): string {
    FailurePrefix + message + FailureSuffix
  }

  /** The message of an HTTP failure names its status: it is the prefix
      followed by text that denotes the status. */
  lemma HttpErrorMessageNamesStatus(status: nat)
    ensures var m := HttpErrorMessage(status);
      |m| > |HttpErrorPrefix| && m[..|HttpErrorPrefix|] == HttpErrorPrefix
      && ParseNat(m[|HttpErrorPrefix|..]) == status
  {
    var m := HttpErrorMessage(status);
    assert m[|HttpErrorPrefix|..] == NatToString(status);
    ParseNatToString(status);
  }

  // ---------------------------------------------------------------------
  // loadContent as functions on the element state

  /** The guard of loadContent: a non-empty URL, and not marked loaded. */
  predicate ShouldFetch(s: ElementState) {
    s.contentUrl.Some? && s.contentUrl.value != "" && s.dataLoaded != Some(LoadedValue)
  }

  /** The synchronous part of loadContent; the flag says whether a fetch was
      started. */
  function StartLoad(s: ElementState): (r: (ElementState, bool))
    ensures r.1 == ShouldFetch(s)
    ensures r.0.contentUrl == s.contentUrl && r.0.dataLoaded == s.dataLoaded
    ensures r.0.innerHTML == s.innerHTML && r.0.rebinds == s.rebinds
  {
    if !ShouldFetch(s) then (s.(warnings := s.warnings + [NoContentWarning]), false)
    else (s.(classes := s.classes + {LoadingClass}, fetches := s.fetches + [s.contentUrl.value]), true)
  }

  /** What a successful body adds to the handler log: each kind of trigger
      is initialised only when the body has some. */
  function RebindsFor(f: Fragment): (r: seq<Rebind>)
    ensures |r| <= 2
    ensures r == [] <==> |f.lightboxTriggers| == 0 && |f.detailTriggers| == 0
  {
    (if |f.lightboxTriggers| > 0 then [LightboxRebind(f.lightboxTriggers)] else [])
    + (if |f.detailTriggers| > 0 then [DetailRebind(f.detailTriggers)] else [])
  }

  /** Each kind of trigger is initialised exactly when the body has some,
      lightbox triggers first. */
  lemma RebindsOnlyFound(f: Fragment)
    ensures LightboxRebind(f.lightboxTriggers) in RebindsFor(f) <==> |f.lightboxTriggers| > 0
    ensures DetailRebind(f.detailTriggers) in RebindsFor(f) <==> |f.detailTriggers| > 0
    ensures |RebindsFor(f)| <= 2
    ensures |f.lightboxTriggers| > 0 ==> RebindsFor(f)[0] == LightboxRebind(f.lightboxTriggers)
  {
  }

  /** The continuation of loadContent once the fetch settles. */
  function Settle(s: ElementState, o: FetchOutcome): (r: ElementState)
    ensures LoadingClass !in r.classes
    ensures r.contentUrl == s.contentUrl && r.fetches == s.fetches && r.warnings == s.warnings
    ensures o.Ok? ==> r.dataLoaded == Some(LoadedValue)
    ensures !o.Ok? ==> r.dataLoaded == s.dataLoaded && r.rebinds == s.rebinds
  {
    var done := s.(classes := s.classes - {LoadingClass});
    match o
    case Ok(f) => done.(innerHTML := f.html, dataLoaded := Some(LoadedValue), rebinds := s.rebinds + RebindsFor(f))
    case HttpError(status) => done.(innerHTML := FailureParagraph(HttpErrorMessage(status)))
    case NetworkError(message) => done.(innerHTML := FailureParagraph(message))
  }

  /** Without a URL, or once loaded, loadContent starts nothing: no class,
      no fetch, the same contents; it only warns. */
  lemma StartLoadGuard(s: ElementState)
    ensures !ShouldFetch(s) <==> !StartLoad(s).1
    ensures !ShouldFetch(s) ==> StartLoad(s).0 == s.(warnings := s.warnings + [NoContentWarning])
    ensures ShouldFetch(s) ==>
      && StartLoad(s).0.classes == s.classes + {LoadingClass}
      && StartLoad(s).0.fetches == s.fetches + [s.contentUrl.value]
      && StartLoad(s).0.innerHTML == s.innerHTML && StartLoad(s).0.dataLoaded == s.dataLoaded
  {
  }

  /** Every way a fetch settles removes the loading class and nothing else. */
  lemma SettleClearsLoading(s: ElementState, o: FetchOutcome)
    ensures Settle(s, o).classes == s.classes - {LoadingClass}
    ensures Settle(s, o).contentUrl == s.contentUrl && Settle(s, o).fetches == s.fetches
  {
  }

  /** A successful load shows the body and marks the element loaded; a
      failed one shows the failure paragraph and leaves the mark alone. */
  lemma SettleOutcome(s: ElementState, o: FetchOutcome)
    ensures o.Ok? ==> Settle(s, o).innerHTML == o.body.html && Settle(s, o).dataLoaded == Some(LoadedValue)
    ensures o.HttpError? ==>
      && Settle(s, o).innerHTML == FailurePrefix + HttpErrorPrefix + NatToString(o.status) + FailureSuffix
      && Settle(s, o).dataLoaded == s.dataLoaded
    ensures o.NetworkError? ==>
      Settle(s, o).innerHTML == FailurePrefix + o.message + FailureSuffix && Settle(s, o).dataLoaded == s.dataLoaded
    ensures !o.Ok? ==> Settle(s, o).rebinds == s.rebinds
  {
  }

  /** Loading is idempotent: after a successful load, calling loadContent
      again starts no fetch. */
  lemma LoadedStaysLoaded(s: ElementState, f: Fragment)
    requires ShouldFetch(s)
    ensures var loaded := Settle(StartLoad(s).0, Ok(f));
      !StartLoad(loaded).1 && StartLoad(loaded).0.fetches == loaded.fetches
  {
  }

  /** A failed load can be retried: the element is as loadable as before. */
  lemma FailureAllowsRetry(s: ElementState, o: FetchOutcome)
    requires !o.Ok?
    ensures ShouldFetch(Settle(StartLoad(s).0, o)) == ShouldFetch(s)
  {
  }

  /** A run of calls to loadContent, each awaited before the next, whose
      fetches settle in turn with the given outcomes (a call that starts no
      fetch uses none). */
  function Session(s: ElementState, outcomes: seq<FetchOutcome>): ElementState
    decreases |outcomes|
  {
    if outcomes == [] then s
    else
      var (started, fetched) := StartLoad(s);
      Session(if fetched then Settle(started, outcomes[0]) else started, outcomes[1..])
  }

  /** The number of outcomes up to and including the first success. */
  function UntilFirstOk(outcomes: seq<FetchOutcome>): nat {
    if outcomes == [] then 0 else if outcomes[0].Ok? then 1 else 1 + UntilFirstOk(outcomes[1..])
  }

  /** A loaded element is never fetched again. */
  lemma {:induction false} SessionAfterLoad(s: ElementState, outcomes: seq<FetchOutcome>)
    requires !ShouldFetch(s)
    ensures Session(s, outcomes).fetches == s.fetches
    decreases |outcomes|
  {
    if outcomes != [] {
      SessionAfterLoad(StartLoad(s).0, outcomes[1..]);
    }
  }

  /** An element with a URL is fetched once per call up to the first
      successful fetch, and never after it. */
  lemma {:induction false} SessionFetchesUntilOk(s: ElementState, outcomes: seq<FetchOutcome>)
    requires ShouldFetch(s)
    ensures |Session(s, outcomes).fetches| == |s.fetches| + UntilFirstOk(outcomes)
    decreases |outcomes|
  {
    if outcomes != [] {
      var next := Settle(StartLoad(s).0, outcomes[0]);
      assert |next.fetches| == |s.fetches| + 1;
      if outcomes[0].Ok? {
        SessionAfterLoad(next, outcomes[1..]);
      } else {
        SessionFetchesUntilOk(next, outcomes[1..]);
      }
    }
  }

  // ---------------------------------------------------------------------
  // The id mapping of the detail triggers

  predicate OccursAt(s: string, pat: string, k: nat) {
    k + |pat| <= |s| && s[k..k + |pat|] == pat
  }

  /** String replace with a string pattern: the first occurrence only. */
  function ReplaceFirst(s: string, pat: string, rep: string): (r: string)
    ensures |r| == |s| || |r| == |s| - |pat| + |rep|
    decreases |s|
  {
    if |s| < |pat| then s
    else if s[..|pat|] == pat then rep + s[|pat|..]
    else [s[0]] + ReplaceFirst(s[1..], pat, rep)
  }

  /** Occurrences in the tail are the occurrences in the whole, one place
      further on. */
  lemma OccursInTail(s: string, pat: string, j: nat)
    requires |s| > 0
    ensures OccursAt(s[1..], pat, j) <==> OccursAt(s, pat, j + 1)
  {
    if j + 1 + |pat| <= |s| {
      assert s[1..][j..j + |pat|] == s[j + 1..j + 1 + |pat|];
    }
  }

  /** The first occurrence, at k, is the one replaced. */
  lemma {:induction false} ReplaceFirstAt(s: string, pat: string, rep: string, k: nat)
    requires OccursAt(s, pat, k)
    requires forall j :: 0 <= j < k ==> !OccursAt(s, pat, j)
    ensures ReplaceFirst(s, pat, rep) == s[..k] + rep + s[k + |pat|..]
    decreases k
  {
    if k > 0 {
      var t := s[1..];
      assert !OccursAt(s, pat, 0);
      OccursInTail(s, pat, k - 1);
      forall j | 0 <= j < k - 1 ensures !OccursAt(t, pat, j) {
        OccursInTail(s, pat, j);
      }
      ReplaceFirstAt(t, pat, rep, k - 1);
      calc {
        ReplaceFirst(s, pat, rep);
        [s[0]] + ReplaceFirst(t, pat, rep);
        [s[0]] + (t[..k - 1] + rep + t[k - 1 + |pat|..]);
        { assert s[..k] == [s[0]] + t[..k - 1]; assert t[k - 1 + |pat|..] == s[k + |pat|..]; }
        s[..k] + rep + s[k + |pat|..];
      }
    }
  }

  /** Without an occurrence nothing is replaced. */
  lemma {:induction false} ReplaceFirstAbsent(s: string, pat: string, rep: string)
    requires forall j :: 0 <= j <= |s| ==> !OccursAt(s, pat, j)
    ensures ReplaceFirst(s, pat, rep) == s
    decreases |s|
  {
    if |s| >= |pat| {
      assert !OccursAt(s, pat, 0);
      var t := s[1..];
      forall j | 0 <= j <= |t| ensures !OccursAt(t, pat, j) {
        OccursInTail(s, pat, j);
      }
      ReplaceFirstAbsent(t, pat, rep);
      assert s == [s[0]] + t;
    }
  }

  /** The id of the details element a banner opens. */
  function DetailsId(triggerId: string): (r: string)
    ensures |r| == |triggerId| || |r| == |triggerId| + 1
  {
    ReplaceFirst(triggerId, "-banner", "-details")
  }

  /** A banner id with its first "-banner" at k maps to the same id with
      "-details" there; an id without "-banner" maps to itself. */
  lemma DetailsIdCases(triggerId: string, k: nat)
    ensures OccursAt(triggerId, "-banner", k) && (forall j :: 0 <= j < k ==> !OccursAt(triggerId, "-banner", j)) ==>
      DetailsId(triggerId) == triggerId[..k] + "-details" + triggerId[k + 7..]
    ensures (forall j :: 0 <= j <= |triggerId| ==> !OccursAt(triggerId, "-banner", j)) ==>
      DetailsId(triggerId) == triggerId
  {
    if OccursAt(triggerId, "-banner", k) && (forall j :: 0 <= j < k ==> !OccursAt(triggerId, "-banner", j)) {
      ReplaceFirstAt(triggerId, "-banner", "-details", k);
    }
    if forall j :: 0 <= j <= |triggerId| ==> !OccursAt(triggerId, "-banner", j) {
      ReplaceFirstAbsent(triggerId, "-banner", "-details");
    }
  }

  /** The open flags after a click: the target's flag flips when the target
      exists, and nothing changes otherwise. */
  function Toggled(open: map<string, bool>, id: string): (m: map<string, bool>)
    ensures m.Keys == open.Keys
  {
    if id in open then open[id := !open[id]] else open
  }

  /** Two clicks on one banner restore the page. */
  lemma ToggledTwice(open: map<string, bool>, id: string)
    ensures Toggled(Toggled(open, id), id) == open
  {
  }

  // ---------------------------------------------------------------------
  // The element and the page

  /** A container element with lazily loaded content. */
  class Container {
    var contentUrl: Option<string>
    var dataLoaded: Option<string>
    var classes: set<string>
    var innerHTML: string
    var fetches: seq<string>
    var rebinds: seq<Rebind>
    var warnings: seq<string>
    /** Fetches started and not yet settled. */
    ghost var inFlight: nat

    function State(): ElementState
      reads this
    {
      ElementState(contentUrl, dataLoaded, classes, innerHTML, fetches, rebinds, warnings)
    }

    constructor (contentUrl: Option<string>, dataLoaded: Option<string>, innerHTML: string)
      ensures State() == ElementState(contentUrl, dataLoaded, {}, innerHTML, [], [], [])
      ensures inFlight == 0
    {
      this.contentUrl := contentUrl;
      this.dataLoaded := dataLoaded;
      this.innerHTML := innerHTML;
      classes := {};
      fetches, rebinds, warnings := [], [], [];
      inFlight := 0;
    }

    /** loadContent up to the fetch: the guard, then the loading class and
        the request. */
    method LoadContent() returns (started: bool)
      modifies this
      ensures (State(), started) == StartLoad(old(State()))
      ensures inFlight == if started then old(inFlight) + 1 else old(inFlight)
    {
      var url := contentUrl;
      if url.None? || url.value == "" || dataLoaded == Some(LoadedValue) {
        warnings := warnings + [NoContentWarning];
        return false;
      }
      classes := classes + {LoadingClass};
      fetches := fetches + [url.value];
      inFlight := inFlight + 1;
      return true;
    }

    /** loadContent after the fetch: the then, catch and finally handlers. */
    method FetchSettled(outcome: FetchOutcome)
      requires inFlight > 0
      modifies this
      ensures State() == Settle(old(State()), outcome)
      ensures inFlight == old(inFlight) - 1
    {
      match outcome {
        case Ok(body) =>
          innerHTML := body.html;
          dataLoaded := Some(LoadedValue);
          if |body.lightboxTriggers| > 0 {
            rebinds := rebinds + [LightboxRebind(body.lightboxTriggers)];
          }
          if |body.detailTriggers| > 0 {
            rebinds := rebinds + [DetailRebind(body.detailTriggers)];
          }
        case HttpError(status) =>
          innerHTML := FailureParagraph(HttpErrorMessage(status));
        case NetworkError(message) =>
          innerHTML := FailureParagraph(message);
      }
      classes := classes - {LoadingClass};
      inFlight := inFlight - 1;
    }
  }

  /** The page's details elements, by id, with their open flags. */
  class Document {
    var openById: map<string, bool>
    var warnings: seq<string>

    constructor (openById: map<string, bool>)
      ensures this.openById == openById && warnings == []
    {
      this.openById := openById;
      warnings := [];
    }

    /** The click handler initializeDetailTriggers installs on a banner: the
        details element named after the banner flips open or closed; a
        missing one only causes a warning. */
    method ClickDetailTrigger(triggerId: string)
      modifies this
      ensures openById == Toggled(old(openById), DetailsId(triggerId))
      ensures DetailsId(triggerId) in old(openById) ==> warnings == old(warnings)
      ensures DetailsId(triggerId) !in old(openById) ==>
        warnings == old(warnings) + [MissingDetailsWarning + DetailsId(triggerId)]
    {
      var detailsId := ReplaceFirst(triggerId, "-banner", "-details");
      if detailsId !in openById {
        warnings := warnings + [MissingDetailsWarning + detailsId];
        return;
      }
      openById := openById[detailsId := !openById[detailsId]];
    }
  }
}
