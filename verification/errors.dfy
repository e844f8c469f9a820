/** `ErrorHandler`: every reported error is kept in a list, forwarded to the
    analytics log when one exists, and a critical one shows the visitor a
    banner, at most once per browser session (the `error_shown` flag in
    `sessionStorage`). */
module Errors {
  import opened Common
  import opened Browser
  import An = Analytics

  /** An error record: its `type` and the other fields its builder set
      (message, file, stack, timestamp, ...). */
  datatype ErrorReport = ErrorReport(kind: string, details: An.Record)

  /** The plain object the handler stores and forwards: the builder's fields
      with `type` among them. */
  function ErrorRecord(e: ErrorReport): (r: An.Record)
    ensures "type" in r && r["type"] == An.Str(e.kind)
    ensures r.Keys == e.details.Keys + {"type"}
    ensures forall k :: k in e.details && k != "type" ==> r[k] == e.details[k]
  {
    e.details["type" := An.Str(e.kind)]
  }

  const ErrorShownKey := "error_shown"

  /** How many of the most recent errors the summary lists. */
  const RecentErrors := 5

  /** `isCriticalError`: the type is one of the two critical types. */
  function IsCriticalError(e: ErrorReport): (r: bool)
    ensures r <==> e.kind == "javascript_error" || e.kind == "unhandled_promise_rejection"
  {
    var criticalTypes := ["javascript_error", "unhandled_promise_rejection"];
    assert e.kind in criticalTypes <==> e.kind == criticalTypes[0] || e.kind == criticalTypes[1];
    e.kind in criticalTypes
  }

  /** Image failures and console errors are reported but never critical. */
  lemma MinorErrors(e: ErrorReport)
    requires e.kind == "image_load_error" || e.kind == "console_error"
    ensures !IsCriticalError(e)
  {
    assert e.kind[0] != "javascript_error"[0] && e.kind[0] != "unhandled_promise_rejection"[0];
  }

  /** `sessionStorage.getItem('error_shown')` is truthy: present and not
      the empty string. */
  predicate Flagged(entries: map<string, string>) {
    ErrorShownKey in entries && entries[ErrorShownKey] != ""
  }

  /** Whether logging `e` with the session store holding `entries` shows the
      banner. */
  predicate ShowsBanner(e: ErrorReport, entries: map<string, string>) {
    IsCriticalError(e) && !Flagged(entries)
  }

  /** The session store after logging `e`: the flag is written when the
      banner is shown, and nothing else changes. */
  function FlagAfter(e: ErrorReport, entries: map<string, string>): (after: map<string, string>)
    ensures ShowsBanner(e, entries) ==> Flagged(after)
    ensures Flagged(entries) ==> after == entries
    ensures forall k :: k != ErrorShownKey ==> (k in after <==> k in entries)
    ensures forall k :: k in entries && k != ErrorShownKey ==> after[k] == entries[k]
  {
    if ShowsBanner(e, entries) then entries[ErrorShownKey := "true"] else entries
  }

  /** The number of banners a run of errors shows, starting from the session
      store `entries`. */
  function BannersOver(entries: map<string, string>, es: seq<ErrorReport>): nat
    decreases |es|
  {
    if es == [] then 0
    else (if ShowsBanner(es[0], entries) then 1 else 0) + BannersOver(FlagAfter(es[0], entries), es[1..])
  }

  /** Over any run of errors in one session, the banner is shown at most
      once: never when the flag is already set, and otherwise exactly when
      some error in the run is critical. */
  lemma {:induction false} BannerAtMostOnce(entries: map<string, string>, es: seq<ErrorReport>)
    ensures BannersOver(entries, es) <= 1
    ensures Flagged(entries) ==> BannersOver(entries, es) == 0
    ensures !Flagged(entries) ==>
      (BannersOver(entries, es) == 1 <==> exists i :: 0 <= i < |es| && IsCriticalError(es[i]))
    decreases |es|
  {
    if es != [] {
      var after := FlagAfter(es[0], entries);
      BannerAtMostOnce(after, es[1..]);
      if !Flagged(entries) && !IsCriticalError(es[0]) {
        assert forall i :: 1 <= i < |es| ==> es[i] == es[1..][i - 1];
        assert (exists i :: 0 <= i < |es| && IsCriticalError(es[i])) ==>
          exists i :: 0 <= i < |es[1..]| && IsCriticalError(es[1..][i]);
      }
    }
  }

  /** `getErrorSummary()`. */
  datatype ErrorSummary = ErrorSummary(
    totalErrors: nat,
    errorsByType: map<string, nat>,
    recentErrors: seq<ErrorReport>)

  /** The `type` of every error, in logging order. */
  function Kinds(errors: seq<ErrorReport>): (kinds: seq<string>)
    ensures |kinds| == |errors|
    ensures forall i :: 0 <= i < |errors| ==> kinds[i] == errors[i].kind
  {
    if errors == [] then [] else [errors[0].kind] + Kinds(errors[1..])
  }

  class ErrorHandler {
    /** `this.errors`, in logging order. */
    var errors: seq<ErrorReport>
    /** The page's `sessionStorage`. */
    const session: KeyValueStore
    /** How many times this handler has shown the banner. */
    ghost var bannersShown: nat

    /** The banner has been shown at most once, and once it has, the
        session's flag is set. */
    ghost predicate Valid()
      reads this, session
    {
      bannersShown <= 1 && (bannersShown == 1 ==> Flagged(session.entries))
    }

    constructor (session: KeyValueStore)
      ensures this.session == session && errors == [] && bannersShown == 0
      ensures Valid()
    {
      this.session := session;
      errors := [];
      bannersShown := 0;
    }

    /** `showUserErrorMessage`: nothing when the flag is set; otherwise the
        banner is shown and the flag written. */
    method ShowUserErrorMessage() returns (shown: bool)
      modifies session`entries
      ensures shown <==> !Flagged(old(session.entries))
      ensures session.entries == if shown then old(session.entries)[ErrorShownKey := "true"] else old(session.entries)
    {
      var flag := if ErrorShownKey in session.entries then session.entries[ErrorShownKey] else "";
      if flag != "" {
        return false;
      }
      session.SetItem(ErrorShownKey, "true");
      shown := true;
    }

    /** `logError(error)`: appended to the list, logged as an `error` event
        when an analytics object exists, and the banner shown for a critical
        error in a session that has not seen it yet. */
    method LogError(e: ErrorReport, analytics: An.Analytics?, env: Env) returns (shown: bool)
      requires Valid()
      requires analytics != null ==> analytics.storage != session
      modifies this`errors, this`bannersShown, session`entries
      modifies (if analytics == null then {} else {analytics})`events
      modifies (if analytics == null then {} else {analytics.storage})`entries
      ensures Valid()
      ensures errors == old(errors) + [e]
      ensures shown == ShowsBanner(e, old(session.entries))
      ensures session.entries == FlagAfter(e, old(session.entries))
      ensures analytics != null ==>
        analytics.events == old(analytics.events)
          + [An.Event("error", ErrorRecord(e), An.SessionIdFor(old(analytics.storage.entries), env), env.pageUrl)]
      ensures analytics != null ==> analytics.storage.entries == An.StoreAfter(old(analytics.storage.entries), env)
    {
      errors := errors + [e];
      if analytics != null {
        analytics.LogEvent("error", ErrorRecord(e), env);
      }
      shown := false;
      if IsCriticalError(e) {
        shown := ShowUserErrorMessage();
        if shown {
          bannersShown := bannersShown + 1;
        }
      }
    }

    /** `getErrorSummary()`: a pure read of the list. */
    function GetErrorSummary(): (s: ErrorSummary)
      reads this
      ensures s.totalErrors == |errors|
      ensures forall t :: t in s.errorsByType <==> exists i :: 0 <= i < |errors| && errors[i].kind == t
      ensures forall t :: t in s.errorsByType ==> s.errorsByType[t] == multiset(Kinds(errors))[t]
      ensures Total(s.errorsByType) == |errors|
      ensures |s.recentErrors| == (if |errors| < RecentErrors then |errors| else RecentErrors)
      ensures errors == errors[..|errors| - |s.recentErrors|] + s.recentErrors
    {
      var kinds := Kinds(errors);
      CountsSumToLength(kinds);
      KindsOccur(errors);
      ErrorSummary(|errors|, CountByKey(kinds), LastN(errors, RecentErrors))
    }
  }

  lemma KindsOccur(errors: seq<ErrorReport>)
    ensures forall t :: t in Kinds(errors) <==> exists i :: 0 <= i < |errors| && errors[i].kind == t
  {
    var kinds := Kinds(errors);
    forall t | t in kinds ensures exists i :: 0 <= i < |errors| && errors[i].kind == t {
      var i :| 0 <= i < |kinds| && kinds[i] == t;
    }
  }
}
