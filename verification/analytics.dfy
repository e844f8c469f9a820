/** The in-page analytics logger (`class Analytics`): an append-only list of
    flat event records, a session id kept in `localStorage`, the handlers
    that turn clicks, scrolling, elapsed time and first interaction into
    events, and the summary read back by the developer tools. */
module Analytics {
  import opened Common
  import opened Text
  import opened Browser
  import opened Buttons
  import opened Milestones

  /** A scalar in an event record. */
  datatype Value = Str(s: string) | Num(n: int)

  /** A flat, string-keyed event record (key order is not modelled). */
  type Record = map<string, Value>

  /** What the page-view event reports about the page and the browser. */
  datatype PageInfo = PageInfo(path: string, userAgent: string, screen: string, viewport: string)

  /** What a conversion hands to the third-party pixels: the event name, the
      button type and its conversion value. */
  datatype ExternalCall = ExternalCall(eventName: string, buttonType: string, value: nat)

  /** `getSummary()`. */
  datatype Summary = Summary(
    totalEvents: nat,
    sessionDuration: int,
    eventsByType: map<string, nat>,
    lastEvents: seq<Event>)

  /** The `localStorage` key of the session id. */
  const SessionKey := "htp_session_id"

  /** How many events the summary repeats at its end. */
  const SummaryTail := 5

  /** The store already holds a usable (non-empty) session id. */
  predicate HasSessionId(entries: map<string, string>) {
    SessionKey in entries && entries[SessionKey] != ""
  }

  /** `'htp_' + random digits + '_' + Date.now()`. */
  function FreshSessionId(env: Env): (id: string)
    ensures |id| > 4 && id[..4] == "htp_"
  {
    "htp_" + env.randomDigits + "_" + NatToString(env.nowMs)
  }

  /** The id `getSessionId` returns against the stored entries. */
  function SessionIdFor(entries: map<string, string>, env: Env): (id: string)
    ensures id != []
    ensures HasSessionId(entries) ==> id == entries[SessionKey]
    ensures !HasSessionId(entries) ==> |id| > 4 && id[..4] == "htp_"
  {
    if HasSessionId(entries) then entries[SessionKey] else FreshSessionId(env)
  }

  /** The stored entries after `getSessionId`: written only when no usable
      id was there. */
  function StoreAfter(entries: map<string, string>, env: Env): (after: map<string, string>)
    ensures HasSessionId(after) && after[SessionKey] == SessionIdFor(entries, env)
    ensures forall k :: k in entries && k != SessionKey ==> k in after && after[k] == entries[k]
    ensures HasSessionId(entries) ==> after == entries
  {
    if HasSessionId(entries) then entries else entries[SessionKey := FreshSessionId(env)]
  }

  /** Once an id is stored, every later call, whatever its clock and
      randomness, returns that id and writes nothing. */
  lemma SessionIdStable(entries: map<string, string>, env1: Env, env2: Env)
    ensures SessionIdFor(StoreAfter(entries, env1), env2) == SessionIdFor(entries, env1)
    ensures StoreAfter(StoreAfter(entries, env1), env2) == StoreAfter(entries, env1)
  {
  }

  /** One logged event: the name and payload `logEvent` was given and the
      session id and page address it added. */
  datatype Event = Event(name: string, data: Record, sessionId: string, pageUrl: string)

  /** The flat object `logEvent` stores for an event: `event` first, then the
      payload spread over it, then `session_id` and `page_url` on top. */
  function Fields(e: Event): (r: Record)
    ensures r.Keys == e.data.Keys + {"event", "session_id", "page_url"}
    ensures r["session_id"] == Str(e.sessionId) && r["page_url"] == Str(e.pageUrl)
    ensures r["event"] == if "event" in e.data then e.data["event"] else Str(e.name)
    ensures forall k :: k in e.data && k != "session_id" && k != "page_url" ==> r[k] == e.data[k]
  {
    map["event" := Str(e.name)] + e.data + map["session_id" := Str(e.sessionId), "page_url" := Str(e.pageUrl)]
  }

  /** A record key as JavaScript turns it into a property name. */
  function KeyText(v: Value): string {
    match v
    case Str(s) => s
    case Num(n) => IntToString(n)
  }

  /** The grouping key of an event in the summary: its `event` field. */
  function EventType(e: Event): string {
    KeyText(Fields(e)["event"])
  }

  function EventTypes(events: seq<Event>): (types: seq<string>)
    ensures |types| == |events|
    ensures forall i :: 0 <= i < |events| ==> types[i] == EventType(events[i])
  {
    if events == [] then [] else [EventType(events[0])] + EventTypes(events[1..])
  }

  /** The payload of a threshold event: the threshold and the time. */
  function ThresholdData(key: string, m: int, env: Env): Record {
    map[key := Num(m), "timestamp" := Str(env.isoTime)]
  }

  /** The events one threshold walk logs, one per reported threshold, in
      the order reported. */
  function ThresholdEvents(name: string, key: string, fired: seq<int>, sid: string, env: Env): seq<Event> {
    if fired == [] then []
    else
      var init := fired[..|fired| - 1];
      ThresholdEvents(name, key, init, sid, env)
        + [Event(name, ThresholdData(key, fired[|fired| - 1], env), sid, env.pageUrl)]
  }

  /** One event per reported threshold, each naming its threshold, in the
      order the thresholds were reported. */
  lemma {:induction false} ThresholdEventsShape(name: string, key: string, fired: seq<int>, sid: string, env: Env)
    ensures |ThresholdEvents(name, key, fired, sid, env)| == |fired|
    ensures forall i :: 0 <= i < |fired| ==>
      ThresholdEvents(name, key, fired, sid, env)[i] == Event(name, ThresholdData(key, fired[i], env), sid, env.pageUrl)
  {
    if fired != [] {
      var init := fired[..|fired| - 1];
      ThresholdEventsShape(name, key, init, sid, env);
      assert forall i :: 0 <= i < |init| ==> init[i] == fired[i];
    }
  }

  lemma ThresholdEventsSnoc(name: string, key: string, fired: seq<int>, m: int, sid: string, env: Env)
    ensures ThresholdEvents(name, key, fired + [m], sid, env)
      == ThresholdEvents(name, key, fired, sid, env) + [Event(name, ThresholdData(key, m, env), sid, env.pageUrl)]
  {
    assert (fired + [m])[..|fired|] == fired;
  }

  /** One more threshold of the list walked: it is tracked afterwards if the
      value reaches it, and reported if, besides, it was not tracked before. */
  lemma WalkStep(list: seq<int>, i: nat, tracked: set<int>, v: int)
    requires i < |list|
    ensures Reach(list[..i + 1], tracked, v)
      == if v >= list[i] then Reach(list[..i], tracked, v) + {list[i]} else Reach(list[..i], tracked, v)
    ensures Crossed(list[..i + 1], tracked, v) == Crossed(list[..i], tracked, v)
      + (if v >= list[i] && list[i] !in Reach(list[..i], tracked, v) then [list[i]] else [])
  {
    assert list[..i + 1] == list[..i] + [list[i]];
    CrossedSnoc(list[..i], list[i], tracked, v);
  }

  /** The state of a threshold walk after the first `i` thresholds: what is
      tracked, what was reported, the log and the store. */
  ghost predicate Walked(list: seq<int>, i: nat, tracked: set<int>, value: int, name: string, key: string,
                         env: Env, sid: string, before: map<string, string>, start: seq<Event>,
                         reached: set<int>, fired: seq<int>, log: seq<Event>, entries: map<string, string>)
    requires i <= |list|
  {
    && sid == SessionIdFor(before, env)
    && reached == Reach(list[..i], tracked, value)
    && fired == Crossed(list[..i], tracked, value)
    && log == start + ThresholdEvents(name, key, fired, sid, env)
    && entries == if fired == [] then before else StoreAfter(before, env)
  }

  /** Visiting threshold `i` takes a walk over the first `i` thresholds to a
      walk over the first `i + 1`. */
  lemma WalkedStep(list: seq<int>, i: nat, tracked: set<int>, value: int, name: string, key: string,
                   env: Env, sid: string, before: map<string, string>, start: seq<Event>,
                   reached0: set<int>, fired0: seq<int>, log0: seq<Event>, entries0: map<string, string>,
                   reached1: set<int>, fired1: seq<int>, log1: seq<Event>, entries1: map<string, string>)
    requires i < |list|
    requires Walked(list, i, tracked, value, name, key, env, sid, before, start, reached0, fired0, log0, entries0)
    requires fired1 == if value >= list[i] && list[i] !in reached0 then fired0 + [list[i]] else fired0
    requires reached1 == if value >= list[i] then reached0 + {list[i]} else reached0
    requires value >= list[i] && list[i] !in reached0 ==>
      log1 == log0 + [Event(name, ThresholdData(key, list[i], env), SessionIdFor(entries0, env), env.pageUrl)]
      && entries1 == StoreAfter(entries0, env)
    requires !(value >= list[i] && list[i] !in reached0) ==> log1 == log0 && entries1 == entries0
    ensures Walked(list, i + 1, tracked, value, name, key, env, sid, before, start, reached1, fired1, log1, entries1)
  {
    WalkStep(list, i, tracked, value);
    assert reached1 == Reach(list[..i + 1], tracked, value);
    assert fired1 == Crossed(list[..i + 1], tracked, value);
    if value >= list[i] && list[i] !in reached0 {
      ThresholdLogged(name, key, env, sid, before, start, fired0, list[i], log0, entries0, log1, entries1);
    }
  }

  /** Logging one more threshold event extends the walk's log by that
      threshold's event, under the same session id. */
  lemma ThresholdLogged(name: string, key: string, env: Env, sid: string, before: map<string, string>,
                        start: seq<Event>, fired: seq<int>, m: int,
                        log0: seq<Event>, entries0: map<string, string>, log1: seq<Event>, entries1: map<string, string>)
    requires sid == SessionIdFor(before, env)
    requires log0 == start + ThresholdEvents(name, key, fired, sid, env)
    requires entries0 == if fired == [] then before else StoreAfter(before, env)
    requires log1 == log0 + [Event(name, ThresholdData(key, m, env), SessionIdFor(entries0, env), env.pageUrl)]
    requires entries1 == StoreAfter(entries0, env)
    ensures log1 == start + ThresholdEvents(name, key, fired + [m], sid, env)
    ensures entries1 == StoreAfter(before, env)
  {
    SessionIdStable(before, env, env);
    ThresholdEventsSnoc(name, key, fired, m, sid, env);
  }

  /** A type occurs among the event types exactly when some event has it. */
  lemma TypesOccur(events: seq<Event>)
    ensures forall t :: t in EventTypes(events) <==> exists i :: 0 <= i < |events| && EventType(events[i]) == t
  {
    var types := EventTypes(events);
    forall t | t in types ensures exists i :: 0 <= i < |events| && EventType(events[i]) == t {
      var i :| 0 <= i < |types| && types[i] == t;
    }
  }

  /** The payload of a `button_click` event. */
  function ClickData(b: Button, env: Env): Record {
    map["button_type" := Str(TypeName(GetButtonType(b))), "button_text" := Str(Trim(b.text)),
        "destination" := Str(Destination(b)), "timestamp" := Str(env.isoTime)]
  }

  /** The payload of a `conversion` event. */
  function ConversionData(kind: ButtonType, destination: string, elapsed: int, env: Env): Record {
    map["conversion_type" := Str(TypeName(kind)), "destination" := Str(destination),
        "time_to_conversion" := Num(elapsed), "timestamp" := Str(env.isoTime)]
  }

  /** What `trackConversion` hands to the external pixels for a type. */
  function ConversionCall(kind: ButtonType): (c: ExternalCall)
    ensures c.eventName == "conversion" && c.buttonType == TypeName(kind)
    ensures c.value == GetConversionValue(kind) && c.value >= 10
  {
    ExternalCall("conversion", TypeName(kind), GetConversionValue(kind))
  }

  /** The `button_click` event a click on `b` logs. */
  function ClickEvent(b: Button, sid: string, env: Env): Event {
    Event("button_click", ClickData(b, env), sid, env.pageUrl)
  }

  /** The `conversion` event a click on `b` logs, `elapsed` milliseconds into
      the session. */
  function ConversionEvent(b: Button, sid: string, elapsed: int, env: Env): Event {
    Event("conversion", ConversionData(GetButtonType(b), Destination(b), elapsed, env), sid, env.pageUrl)
  }

  /** The events one click on `b` logs, `elapsed` milliseconds into the
      session: the click itself, then the conversion for a conversion
      button. */
  function ClickEvents(b: Button, sid: string, elapsed: int, env: Env): (es: seq<Event>)
    ensures |es| == (if IsConversionButton(b) then 2 else 1)
    ensures es[0] == ClickEvent(b, sid, env)
    ensures |es| == 2 ==> es[1] == ConversionEvent(b, sid, elapsed, env)
  {
    [ClickEvent(b, sid, env)] + if IsConversionButton(b) then [ConversionEvent(b, sid, elapsed, env)] else []
  }

  /** The two events of a conversion click agree on the type and the
      destination they report. */
  lemma ClickAndConversionAgree(b: Button, sid: string, elapsed: int, env: Env)
    ensures ClickEvent(b, sid, env).data["button_type"] == ConversionEvent(b, sid, elapsed, env).data["conversion_type"]
    ensures ClickEvent(b, sid, env).data["destination"] == ConversionEvent(b, sid, elapsed, env).data["destination"]
    ensures ConversionEvent(b, sid, elapsed, env).data["time_to_conversion"] == Num(elapsed)
  {
  }

  /** A click event followed by a conversion event, each logged with the id
      the store held at that moment, carry the same session id, and the
      store ends as after a single `getSessionId`. */
  lemma ConversionLogged(b: Button, env: Env, elapsed: int, before: map<string, string>, start: seq<Event>,
                         log1: seq<Event>, entries1: map<string, string>,
                         log2: seq<Event>, entries2: map<string, string>)
    requires log1 == start + [Event("button_click", ClickData(b, env), SessionIdFor(before, env), env.pageUrl)]
    requires entries1 == StoreAfter(before, env)
    requires log2 == log1 + [Event("conversion", ConversionData(GetButtonType(b), Destination(b), elapsed, env),
                                   SessionIdFor(entries1, env), env.pageUrl)]
    requires entries2 == StoreAfter(entries1, env)
    requires IsConversionButton(b)
    ensures log2 == start + ClickEvents(b, SessionIdFor(before, env), elapsed, env)
    ensures entries2 == StoreAfter(before, env)
  {
    SessionIdStable(before, env, env);
  }

  /** When the tracked thresholds are those the running maximum of the
      observations has reached, a new observation reports exactly the
      thresholds between the old maximum and itself, and leaves tracked those
      the new running maximum has reached. */
  lemma ObservationStep(list: seq<int>, seen: seq<int>, v: int)
    requires Ascending(list)
    ensures Crossed(list, Below(list, RunningMax(0, seen)), v) == Between(list, RunningMax(0, seen), v)
    ensures Reach(list, Below(list, RunningMax(0, seen)), v) == Below(list, RunningMax(0, seen + [v]))
  {
    var lo := RunningMax(0, seen);
    RunningMaxSnoc(0, seen, v);
    assert Distinct(list);
    CrossedFromBelow(list, Below(list, lo), lo, v);
    ReachBelow(list, lo, v);
  }

  class Analytics {
    /** `this.events`, in logging order. */
    var events: seq<Event>
    /** `this.sessionStart`: `Date.now()` at construction. */
    const sessionStart: int
    /** The page's `localStorage`. */
    const storage: KeyValueStore

    /** State the handlers of `trackScroll`, `trackTimeOnPage` and
        `trackUserInteraction` keep in their closures. */
    const milestones: seq<int>
    const intervals: seq<int>
    var maxScroll: int
    var trackedMilestones: set<int>
    var trackedIntervals: set<int>
    var interactionCount: nat

    /** Every scroll percentage and every time reading observed so far. */
    ghost var scrollsSeen: seq<int>
    ghost var timesSeen: seq<int>

    /** The maximum is the running maximum of what was seen, and a threshold
        is tracked exactly when some observation has reached it. */
    ghost predicate Valid()
      reads this
    {
      && Ascending(milestones) && Ascending(intervals)
      && maxScroll == RunningMax(0, scrollsSeen)
      && trackedMilestones == Below(milestones, maxScroll)
      && trackedIntervals == Below(intervals, RunningMax(0, timesSeen))
    }

    /** `new Analytics()`: empty state, then `trackPageView` logs one event. */
    constructor (store: KeyValueStore, env: Env, page: PageInfo)
      modifies store`entries
      ensures Valid()
      ensures storage == store && sessionStart == env.nowMs
      ensures milestones == ScrollMilestones && intervals == TimeIntervals
      ensures store.entries == StoreAfter(old(store.entries), env)
      ensures events == [Event("page_view", PageViewData(page, env),
                                   SessionIdFor(old(store.entries), env), env.pageUrl)]
      ensures maxScroll == 0 && trackedMilestones == {} && trackedIntervals == {} && interactionCount == 0
    {
      events := [];
      sessionStart := env.nowMs;
      storage := store;
      milestones := ScrollMilestones;
      intervals := TimeIntervals;
      maxScroll := 0;
      trackedMilestones := {};
      trackedIntervals := {};
      interactionCount := 0;
      scrollsSeen := [];
      timesSeen := [];
      new;
      ThresholdListsAscending();
      assert Below(milestones, 0) == {} && Below(intervals, 0) == {};
      LogEvent("page_view", PageViewData(page, env), env);
    }

    static function PageViewData(page: PageInfo, env: Env): Record {
      map["page" := Str(page.path), "timestamp" := Str(env.isoTime),
          "user_agent" := Str(page.userAgent), "screen_resolution" := Str(page.screen),
          "viewport" := Str(page.viewport)]
    }

    /** `getSessionId()`: the stored id if there is a usable one, otherwise a
        fresh one, which is stored. */
    method GetSessionId(env: Env) returns (id: string)
      modifies storage`entries
      ensures id == SessionIdFor(old(storage.entries), env)
      ensures storage.entries == StoreAfter(old(storage.entries), env)
    {
      var stored := if SessionKey in storage.entries then storage.entries[SessionKey] else "";
      if stored == "" {
        id := FreshSessionId(env);
        storage.SetItem(SessionKey, id);
      } else {
        id := stored;
      }
    }

    /** `logEvent(name, data)`: exactly one record appended at the end. */
    method LogEvent(name: string, data: Record, env: Env)
      modifies this`events, storage`entries
      ensures events == old(events) + [Event(name, data, SessionIdFor(old(storage.entries), env), env.pageUrl)]
      ensures storage.entries == StoreAfter(old(storage.entries), env)
    {
      var sid := GetSessionId(env);
      var event := Event(name, data, sid, env.pageUrl);
      events := events + [event];
    }

    /** The `forEach` over a threshold list shared by the scroll and the
        time handlers: each reached, untracked threshold is added to the
        tracked set and logged, in list order. */
    method FireThresholds(list: seq<int>, tracked: set<int>, value: int, name: string, key: string, env: Env)
      returns (reached: set<int>)
      modifies this`events, storage`entries
      ensures reached == Reach(list, tracked, value)
      ensures events == old(events) + ThresholdEvents(name, key, Crossed(list, tracked, value),
                                                      SessionIdFor(old(storage.entries), env), env)
      ensures storage.entries == if Crossed(list, tracked, value) == [] then old(storage.entries)
                                 else StoreAfter(old(storage.entries), env)
    {
      ghost var sid := SessionIdFor(storage.entries, env);
      ghost var before := storage.entries;
      ghost var start := events;
      ghost var fired: seq<int> := [];
      reached := tracked;
      var i := 0;
      while i < |list|
        invariant 0 <= i <= |list|
        invariant Walked(list, i, tracked, value, name, key, env, sid, before, start, reached, fired, events, storage.entries)
      {
        ghost var reached0, fired0, events0, entries0 := reached, fired, events, storage.entries;
        if value >= list[i] && list[i] !in reached {
          fired := fired + [list[i]];
        }
        reached := VisitThreshold(list[i], reached, value, name, key, env);
        WalkedStep(list, i, tracked, value, name, key, env, sid, before, start,
                   reached0, fired0, events0, entries0, reached, fired, events, storage.entries);
        i := i + 1;
      }
      assert list[..i] == list;
    }

    /** The `forEach` callback for one threshold. */
    method VisitThreshold(m: int, tracked: set<int>, value: int, name: string, key: string, env: Env)
      returns (reached: set<int>)
      modifies this`events, storage`entries
      ensures reached == if value >= m then tracked + {m} else tracked
      ensures value >= m && m !in tracked ==>
        && events == old(events) + [Event(name, ThresholdData(key, m, env),
                                              SessionIdFor(old(storage.entries), env), env.pageUrl)]
        && storage.entries == StoreAfter(old(storage.entries), env)
      ensures !(value >= m && m !in tracked) ==> events == old(events) && storage.entries == old(storage.entries)
    {
      reached := tracked;
      if value >= m && m !in tracked {
        reached := reached + {m};
        LogEvent(name, ThresholdData(key, m, env), env);
      }
    }

    /** The throttled scroll handler, given the rounded scroll percentage:
        raise the maximum, then log every newly reached scroll milestone. */
    method OnScroll(percent: int, env: Env)
      requires Valid()
      modifies this`maxScroll, this`trackedMilestones, this`scrollsSeen, this`events, storage`entries
      ensures Valid()
      ensures scrollsSeen == old(scrollsSeen) + [percent]
      ensures maxScroll == if percent > old(maxScroll) then percent else old(maxScroll)
      ensures events == old(events) + ThresholdEvents("scroll_milestone", "milestone",
        Between(milestones, old(maxScroll), percent), SessionIdFor(old(storage.entries), env), env)
      ensures storage.entries == if Between(milestones, old(maxScroll), percent) == [] then old(storage.entries)
                                 else StoreAfter(old(storage.entries), env)
    {
      ghost var seen := scrollsSeen;
      ObservationStep(milestones, seen, percent);
      RunningMaxSnoc(0, seen, percent);
      maxScroll := if percent > maxScroll then percent else maxScroll;
      scrollsSeen := scrollsSeen + [percent];
      trackedMilestones := FireThresholds(milestones, trackedMilestones, percent,
                                          "scroll_milestone", "milestone", env);
      assert maxScroll == RunningMax(0, seen + [percent]);
      assert trackedMilestones == Below(milestones, maxScroll);
      assert trackedIntervals == old(trackedIntervals) && timesSeen == old(timesSeen);
    }

    /** The five-second timer: whole seconds since construction (`Math.floor`
        of the milliseconds over 1000), then every newly reached interval. */
    method OnTimeTick(env: Env)
      requires Valid()
      modifies this`trackedIntervals, this`timesSeen, this`events, storage`entries
      ensures Valid()
      ensures timesSeen == old(timesSeen) + [(env.nowMs - sessionStart) / 1000]
      ensures events == old(events) + ThresholdEvents("time_on_page", "seconds",
        Between(intervals, RunningMax(0, old(timesSeen)), (env.nowMs - sessionStart) / 1000),
        SessionIdFor(old(storage.entries), env), env)
      ensures storage.entries
        == if Between(intervals, RunningMax(0, old(timesSeen)), (env.nowMs - sessionStart) / 1000) == []
           then old(storage.entries) else StoreAfter(old(storage.entries), env)
    {
      var timeOnPage := (env.nowMs - sessionStart) / 1000;
      ghost var seen := timesSeen;
      ObservationStep(intervals, seen, timeOnPage);
      timesSeen := timesSeen + [timeOnPage];
      trackedIntervals := FireThresholds(intervals, trackedIntervals, timeOnPage,
                                         "time_on_page", "seconds", env);
      assert trackedIntervals == Below(intervals, RunningMax(0, seen + [timeOnPage]));
    }

    /** The `beforeunload` handler: one event with the maximum scroll. */
    method OnBeforeUnload(env: Env)
      modifies this`events, storage`entries
      ensures events == old(events) + [Event("max_scroll",
        map["max_scroll_percent" := Num(maxScroll), "timestamp" := Str(env.isoTime)],
        SessionIdFor(old(storage.entries), env), env.pageUrl)]
      ensures storage.entries == StoreAfter(old(storage.entries), env)
    {
      LogEvent("max_scroll", map["max_scroll_percent" := Num(maxScroll), "timestamp" := Str(env.isoTime)], env);
    }

    /** The document click handler: nothing happens unless the click landed
        inside a link or button. */
    method OnClick(target: Option<Button>, env: Env) returns (external: Option<ExternalCall>)
      modifies this`events, storage`entries
      ensures target.None? ==> events == old(events) && external.None? && storage.entries == old(storage.entries)
      ensures target.Some? ==> storage.entries == StoreAfter(old(storage.entries), env)
      ensures target.Some? ==> events == old(events) + ClickEvents(target.value, SessionIdFor(old(storage.entries), env),
                                                                    env.nowMs - sessionStart, env)
      ensures external.Some? <==> target.Some? && IsConversionButton(target.value)
      ensures external.Some? ==> external.value == ConversionCall(GetButtonType(target.value))
    {
      external := None;
      if target.Some? {
        external := OnButtonClick(target.value, env);
      }
    }

    /** A click on link or button `b`: a `button_click` event, followed for a
        conversion button by a `conversion` event and the hand-off to the
        external pixels. */
    method OnButtonClick(b: Button, env: Env) returns (external: Option<ExternalCall>)
      modifies this`events, storage`entries
      ensures storage.entries == StoreAfter(old(storage.entries), env)
      ensures events == old(events) + ClickEvents(b, SessionIdFor(old(storage.entries), env), env.nowMs - sessionStart, env)
      ensures external.Some? <==> IsConversionButton(b)
      ensures external.Some? ==> external.value == ConversionCall(GetButtonType(b))
    {
      var kind := GetButtonType(b);
      var destination := Destination(b);
      ghost var before := storage.entries;
      ghost var start := events;
      LogEvent("button_click", ClickData(b, env), env);
      external := None;
      if IsConversionButton(b) {
        ghost var log1, entries1 := events, storage.entries;
        var call := TrackConversion(kind, destination, env);
        ConversionLogged(b, env, env.nowMs - sessionStart, before, start, log1, entries1, events, storage.entries);
        external := Some(call);
      } else {
        assert events == start + ClickEvents(b, SessionIdFor(before, env), env.nowMs - sessionStart, env);
      }
    }

    /** `trackConversion`: log the conversion, and hand its type and value
        to the external pixels. */
    method TrackConversion(kind: ButtonType, destination: string, env: Env) returns (call: ExternalCall)
      modifies this`events, storage`entries
      ensures events == old(events) + [Event("conversion",
        ConversionData(kind, destination, env.nowMs - sessionStart, env),
        SessionIdFor(old(storage.entries), env), env.pageUrl)]
      ensures storage.entries == StoreAfter(old(storage.entries), env)
      ensures call == ConversionCall(kind)
    {
      LogEvent("conversion", ConversionData(kind, destination, env.nowMs - sessionStart, env), env);
      call := ConversionCall(kind);
    }

    /** The throttled interaction listener: count the call, and log
        `first_interaction` on the first one only. */
    method OnInteraction(eventType: string, env: Env)
      modifies this`interactionCount, this`events, storage`entries
      ensures interactionCount == old(interactionCount) + 1
      ensures old(interactionCount) == 0 ==> events == old(events) + [Event("first_interaction",
        map["type" := Str(eventType), "time_to_first_interaction" := Num(env.nowMs - sessionStart),
            "timestamp" := Str(env.isoTime)],
        SessionIdFor(old(storage.entries), env), env.pageUrl)]
      ensures old(interactionCount) != 0 ==> events == old(events)
      ensures storage.entries == if old(interactionCount) == 0 then StoreAfter(old(storage.entries), env)
                                 else old(storage.entries)
    {
      interactionCount := interactionCount + 1;
      if interactionCount == 1 {
        LogEvent("first_interaction",
          map["type" := Str(eventType), "time_to_first_interaction" := Num(env.nowMs - sessionStart),
              "timestamp" := Str(env.isoTime)], env);
      }
    }

    /** `getSummary()`: a pure read of the log. */
    function GetSummary(nowMs: int): (s: Summary)
      reads this
      ensures s.totalEvents == |events|
      ensures s.sessionDuration == nowMs - sessionStart
      ensures forall t :: t in s.eventsByType <==> exists i :: 0 <= i < |events| && EventType(events[i]) == t
      ensures forall t :: t in s.eventsByType ==> s.eventsByType[t] == multiset(EventTypes(events))[t]
      ensures Total(s.eventsByType) == |events|
      ensures |s.lastEvents| == (if |events| < SummaryTail then |events| else SummaryTail)
      ensures events == events[..|events| - |s.lastEvents|] + s.lastEvents
    {
      var types := EventTypes(events);
      CountsSumToLength(types);
      TypesOccur(events);
      Summary(|events|, nowMs - sessionStart, CountByKey(types), LastN(events, SummaryTail))
    }
  }
}
