/**
 * What the PhishTank bot does with one parsed `<entry>` of the dump
 * (`PhishTankBot._handle_entry` in abusehelper/contrib/phishtank/phishtankbot.py):
 * entries that are not verified and online are dropped, and every
 * (IP address, announcing network) pair of an entry's details is reported at
 * most once per URL over a whole poll, remembered in the shared `sites` map.
 */
module PhishTankEntries {
  import opened Wrappers

  // ---------------------------------------------------------------------
  // A parsed entry: only the elements `_handle_entry` looks at

  /** An XML element, by its text (`None` for an element with no text). */
  datatype Element = Element(text: Option<string>)

  datatype Verification = Verification(verified: Option<Element>, time: Option<Element>)

  datatype Status = Status(online: Option<Element>)

  datatype Detail = Detail(ip: Option<Element>, announcer: Option<Element>)

  /** `<entry>`; `details` holds the `<detail>` children of `<details>` in document order. */
  datatype Entry = Entry(
    url: Option<Element>,
    verification: Option<Verification>,
    status: Option<Status>,
    details: Option<seq<Detail>>,
    target: Option<Element>)

  /** One event sent on: the feed name is always "phishtank". */
  datatype Event = Event(
    feed: string,
    url: Option<string>,
    host: string,
    ip: Option<string>,
    asn: string,
    sourceTime: Option<string>,
    target: Option<string>)

  /** An IP address (the element's text, possibly `None`) and its announcing network. */
  type Pair = (Option<string>, string)

  /** `sites`: the pairs already reported, per URL text. */
  type Sites = map<Option<string>, set<Pair>>

  /** Everything an event takes from its entry rather than from a detail. */
  datatype Context = Context(url: Option<string>, host: string, time: Option<string>, target: Option<string>)

  /**
   * What handling an entry leaves: the events sent, `sites` afterwards, and
   * whether the handler raised (which ends the poll).
   */
  datatype Outcome = Outcome(events: seq<Event>, sites: Sites, raised: bool)

  // ---------------------------------------------------------------------
  // The specification

  function IsYes(e: Option<Element>): bool
  {
    e.Some? && e.value.text == Some("yes")
  }

  /** The early returns of `_handle_entry`: a url, verified "yes", online "yes" and details are all required. */
  predicate Reported(entry: Entry)
  {
    entry.url.Some?
    && entry.verification.Some? && IsYes(entry.verification.value.verified)
    && entry.status.Some? && IsYes(entry.status.value.online)
    && entry.details.Some?
  }

  /** The pair a detail contributes: none without an `ip_address` or without an announcing network's text. */
  function PairOf(d: Detail): Option<Pair>
  {
    if d.ip.None? then None
    else if d.announcer.None? || d.announcer.value.text.None? then None
    else Some((d.ip.value.text, d.announcer.value.text.value))
  }

  /** `sites.get(url, set())`. */
  function Known(sites: Sites, url: Option<string>): set<Pair>
  {
    if url in sites then sites[url] else {}
  }

  /**
   * The source time: the verification time reformatted by `reformat`, which
   * answers `None` where `strptime` raises `ValueError`; none when the
   * element is missing or has no text.
   */
  function SourceTime(v: Verification, reformat: string -> Option<string>): Option<string>
  {
    if v.time.Some? && v.time.value.text.Some? && v.time.value.text.value != "" then reformat(v.time.value.text.value)
    else None
  }

  function ContextOf(entry: Entry, hostOf: Option<string> -> string, reformat: string -> Option<string>): Context
    requires entry.url.Some? && entry.verification.Some?
  {
    var url := entry.url.value.text;
    var target := if entry.target.Some? then entry.target.value.text else None;
    Context(url, hostOf(url), SourceTime(entry.verification.value, reformat), target)
  }

  function EventFor(ctx: Context, p: Pair): Event
  {
    Event("phishtank", ctx.url, ctx.host, p.0, p.1, ctx.time, ctx.target)
  }

  /**
   * The loop body for one detail: `sites.setdefault(url, set())`, then the pair
   * is recorded and sent unless it is known. A url element with no text is
   * `None`, and `urlparse(None)` raises once the new pair has been recorded,
   * before anything is sent.
   */
  function Step(ctx: Context, d: Detail, sites: Sites): Outcome
  {
    match PairOf(d)
    case None => Outcome([], sites, false)
    case Some(p) =>
      var known := Known(sites, ctx.url);
      if p in known then Outcome([], sites[ctx.url := known], false)
      else if ctx.url.None? then Outcome([], sites[ctx.url := known + {p}], true)
      else Outcome([EventFor(ctx, p)], sites[ctx.url := known + {p}], false)
  }

  /** The loop over the details, from the first on, up to the end or the first raise. */
  function Scan(ctx: Context, details: seq<Detail>, sites: Sites): Outcome
    decreases |details|
  {
    if details == [] then Outcome([], sites, false)
    else
      var step := Step(ctx, details[0], sites);
      if step.raised then step
      else
        var rest := Scan(ctx, details[1..], step.sites);
        Outcome(step.events + rest.events, rest.sites, rest.raised)
  }

  /** `_handle_entry` on values. */
  function Handled(entry: Entry, sites: Sites, hostOf: Option<string> -> string, reformat: string -> Option<string>): Outcome
  {
    if Reported(entry) then Scan(ContextOf(entry, hostOf, reformat), entry.details.value, sites)
    else Outcome([], sites, false)
  }

  /**
   * A poll: the entries one after the other, sharing `sites`; a raise in one
   * entry ends the poll, since only `SyntaxError` is caught around the loop.
   */
  function HandledAll(entries: seq<Entry>, sites: Sites, hostOf: Option<string> -> string, reformat: string -> Option<string>): Outcome
    decreases |entries|
  {
    if entries == [] then Outcome([], sites, false)
    else
      var first := Handled(entries[0], sites, hostOf, reformat);
      if first.raised then first
      else
        var rest := HandledAll(entries[1..], first.sites, hostOf, reformat);
        Outcome(first.events + rest.events, rest.sites, rest.raised)
  }

  /** The scan from the `i`-th detail on: that detail's step, then the scan of the ones after it. */
  lemma ScanFrom(ctx: Context, details: seq<Detail>, i: nat, sites: Sites)
    requires i < |details|
    ensures var step := Step(ctx, details[i], sites);
            var rest := Scan(ctx, details[i + 1..], step.sites);
            Scan(ctx, details[i..], sites)
              == if step.raised then step else Outcome(step.events + rest.events, rest.sites, rest.raised)
  {
    assert details[i..][0] == details[i] && details[i..][1..] == details[i + 1..];
  }

  lemma EventsAssociate(a: seq<Event>, b: seq<Event>, c: seq<Event>)
    ensures (a + b) + c == a + (b + c)
  {
  }

  // ---------------------------------------------------------------------
  // The handler

  /** The state shared by the entries of one poll. */
  class Poll {
    var sites: Sites

    constructor()
      ensures sites == map[]
    {
      sites := map[];
    }

    /** `_handle_entry`: the events for `entry`, with `sites` updated as it goes. */
    method HandleEntry(entry: Entry, hostOf: Option<string> -> string, reformat: string -> Option<string>) returns (events: seq<Event>, raised: bool)
      modifies this
      ensures Outcome(events, sites, raised) == Handled(entry, old(sites), hostOf, reformat)
    {
      events, raised := [], false;
      if entry.url.None? {
        return;
      }
      var url := entry.url.value.text;
      if entry.verification.None? {
        return;
      }
      var verification := entry.verification.value;
      if !IsYes(verification.verified) {
        return;
      }
      var ts := SourceTime(verification, reformat);
      if entry.status.None? || !IsYes(entry.status.value.online) {
        return;
      }
      if entry.details.None? {
        return;
      }
      var target := if entry.target.Some? then entry.target.value.text else None;
      var ctx := Context(url, hostOf(url), ts, target);
      assert ctx == ContextOf(entry, hostOf, reformat);
      events, raised := ScanDetails(ctx, entry.details.value);
    }

    /** The loop over the details of one entry: a pair is sent unless `sites` already holds it for the url. */
    method ScanDetails(ctx: Context, details: seq<Detail>) returns (events: seq<Event>, raised: bool)
      modifies this
      ensures Outcome(events, sites, raised) == Scan(ctx, details, old(sites))
    {
      events, raised := [], false;
      var url := ctx.url;
      ghost var whole := Scan(ctx, details, sites);
      var i := 0;
      while i < |details|
        invariant 0 <= i <= |details|
        invariant events + Scan(ctx, details[i..], sites).events == whole.events
        invariant Scan(ctx, details[i..], sites).sites == whole.sites
        invariant Scan(ctx, details[i..], sites).raised == whole.raised
      {
        ScanFrom(ctx, details, i, sites);
        ghost var step := Step(ctx, details[i], sites);
        ghost var rest := Scan(ctx, details[i + 1..], step.sites);
        ghost var before := events;
        var pair := PairOf(details[i]);
        if pair.Some? {
          var known := Known(sites, url);
          if pair.value in known {
            sites := sites[url := known];
          } else if url.None? {
            sites := sites[url := known + {pair.value}];
            raised := true;
            assert events + [] == events;
            return;
          } else {
            sites := sites[url := known + {pair.value}];
            events := events + [EventFor(ctx, pair.value)];
          }
        } else {
          assert events == before + [];
        }
        assert sites == step.sites && events == before + step.events;
        EventsAssociate(before, step.events, rest.events);
        i := i + 1;
      }
      assert details[i..] == [];
    }
  }

  // ---------------------------------------------------------------------
  // What the handler promises

  /** An entry that fails a check sends nothing and leaves `sites` alone. */
  lemma UnreportedSendsNothing(entry: Entry, sites: Sites, hostOf: Option<string> -> string, reformat: string -> Option<string>)
    requires !Reported(entry)
    ensures Handled(entry, sites, hostOf, reformat) == Outcome([], sites, false)
  {
  }

  /** The pairs of `details` that are reported at all. */
  function Pairs(details: seq<Detail>): (ps: set<Pair>)
    ensures forall d :: d in details && PairOf(d).Some? ==> PairOf(d).value in ps
    ensures forall p :: p in ps ==> exists d :: d in details && PairOf(d) == Some(p)
    decreases |details|
  {
    if details == [] then {}
    else
      var rest := Pairs(details[1..]);
      assert forall d :: d in details[1..] ==> d in details;
      assert forall d :: d in details ==> d == details[0] || d in details[1..];
      if PairOf(details[0]).Some? then {PairOf(details[0]).value} + rest else rest
  }

  /** The sites after one detail: its pair, if any, is added under the url. */
  lemma StepSites(ctx: Context, d: Detail, sites: Sites)
    ensures var known := Known(sites, ctx.url);
      Step(ctx, d, sites).sites == (if PairOf(d).None? then sites else sites[ctx.url := known + {PairOf(d).value}])
  {
    if PairOf(d).Some? && PairOf(d).value in Known(sites, ctx.url) {
      assert ctx.url in sites;
      assert Known(sites, ctx.url) + {PairOf(d).value} == sites[ctx.url];
    }
  }

  /** Every event sent for `details` is the event of one of their pairs that was not known before. */
  lemma {:induction false} ScanSendsNew(ctx: Context, details: seq<Detail>, sites: Sites)
    ensures forall e :: e in Scan(ctx, details, sites).events ==>
      e == EventFor(ctx, (e.ip, e.asn)) && (e.ip, e.asn) in Pairs(details) && (e.ip, e.asn) !in Known(sites, ctx.url)
    decreases |details|
  {
    if details != [] {
      var step := Step(ctx, details[0], sites);
      ScanSendsNew(ctx, details[1..], step.sites);
      StepSites(ctx, details[0], sites);
      assert Known(sites, ctx.url) <= Known(step.sites, ctx.url);
    }
  }

  /**
   * The scan raises exactly when the url has no text and some pair of the
   * details is new for it; without a url text nothing is ever sent.
   */
  lemma {:induction false} ScanRaises(ctx: Context, details: seq<Detail>, sites: Sites)
    ensures Scan(ctx, details, sites).raised <==> ctx.url.None? && !(Pairs(details) <= Known(sites, ctx.url))
    ensures ctx.url.None? ==> Scan(ctx, details, sites).events == []
    decreases |details|
  {
    if details != [] {
      var step := Step(ctx, details[0], sites);
      StepSites(ctx, details[0], sites);
      if !step.raised {
        ScanRaises(ctx, details[1..], step.sites);
        if PairOf(details[0]).Some? {
          var p := PairOf(details[0]).value;
          assert Pairs(details) == {p} + Pairs(details[1..]);
          assert Known(step.sites, ctx.url) == Known(sites, ctx.url) + {p};
        } else {
          assert Pairs(details) == Pairs(details[1..]);
        }
      } else {
        assert PairOf(details[0]).value in Pairs(details);
      }
    }
  }

  /** The scan only adds to `sites`, raise or not. */
  lemma {:induction false} ScanGrows(ctx: Context, details: seq<Detail>, sites: Sites)
    ensures Grows(sites, Scan(ctx, details, sites).sites)
    decreases |details|
  {
    if details != [] {
      var step := Step(ctx, details[0], sites);
      StepSites(ctx, details[0], sites);
      if !step.raised {
        ScanGrows(ctx, details[1..], step.sites);
      }
    }
  }

  /** The sites after a scan that did not raise: exactly the details' pairs are added under the url. */
  lemma {:induction false} ScanSites(ctx: Context, details: seq<Detail>, sites: Sites)
    ensures !Scan(ctx, details, sites).raised ==>
      Scan(ctx, details, sites).sites == if Pairs(details) == {} then sites else sites[ctx.url := Known(sites, ctx.url) + Pairs(details)]
    decreases |details|
  {
    if details != [] && !Step(ctx, details[0], sites).raised {
      var step := Step(ctx, details[0], sites);
      ScanSites(ctx, details[1..], step.sites);
      StepSites(ctx, details[0], sites);
      var known := Known(sites, ctx.url);
      if PairOf(details[0]).Some? {
        var p := PairOf(details[0]).value;
        assert Pairs(details) == {p} + Pairs(details[1..]);
        assert Known(step.sites, ctx.url) == known + {p};
        assert step.sites == sites[ctx.url := known + {p}];
        if Pairs(details[1..]) == {} {
          assert known + {p} == known + Pairs(details);
        } else {
          assert (known + {p}) + Pairs(details[1..]) == known + Pairs(details);
          assert step.sites[ctx.url := known + Pairs(details)] == sites[ctx.url := known + Pairs(details)];
        }
      } else {
        assert Pairs(details) == Pairs(details[1..]);
      }
    }
  }

  /** No two events carry the same pair. */
  predicate PairsDistinct(events: seq<Event>)
  {
    forall i, j :: 0 <= i < j < |events| ==> (events[i].ip, events[i].asn) != (events[j].ip, events[j].asn)
  }

  /** No pair is sent twice for one entry. */
  lemma {:induction false} ScanSendsOnce(ctx: Context, details: seq<Detail>, sites: Sites)
    ensures PairsDistinct(Scan(ctx, details, sites).events)
    decreases |details|
  {
    if details != [] && !Step(ctx, details[0], sites).raised {
      var step := Step(ctx, details[0], sites);
      var rest := Scan(ctx, details[1..], step.sites);
      assert Scan(ctx, details, sites).events == step.events + rest.events;
      ScanSendsOnce(ctx, details[1..], step.sites);
      if step.events == [] {
        assert step.events + rest.events == rest.events;
      } else {
        var p := PairOf(details[0]).value;
        assert step.events == [EventFor(ctx, p)];
        StepSites(ctx, details[0], sites);
        assert p in Known(step.sites, ctx.url);
        ScanSendsNew(ctx, details[1..], step.sites);
        ConsDistinct(EventFor(ctx, p), rest.events);
      }
    }
  }

  lemma ConsDistinct(e: Event, events: seq<Event>)
    requires PairsDistinct(events)
    requires forall f :: f in events ==> (f.ip, f.asn) != (e.ip, e.asn)
    ensures PairsDistinct([e] + events)
  {
    var all := [e] + events;
    forall i, j | 0 <= i < j < |all|
      ensures (all[i].ip, all[i].asn) != (all[j].ip, all[j].asn)
    {
      assert all[j] == events[j - 1];
      if i > 0 {
        assert all[i] == events[i - 1];
      }
    }
  }

  /** For a url with text, every pair of `details` that was not known is sent. */
  lemma {:induction false} ScanSendsAllNew(ctx: Context, details: seq<Detail>, sites: Sites)
    requires ctx.url.Some?
    ensures forall p :: p in Pairs(details) && p !in Known(sites, ctx.url) ==> EventFor(ctx, p) in Scan(ctx, details, sites).events
    decreases |details|
  {
    if details != [] {
      var step := Step(ctx, details[0], sites);
      ScanSendsAllNew(ctx, details[1..], step.sites);
      StepSites(ctx, details[0], sites);
      forall p | p in Pairs(details) && p !in Known(sites, ctx.url)
        ensures EventFor(ctx, p) in Scan(ctx, details, sites).events
      {
        if PairOf(details[0]) != Some(p) {
          assert p in Pairs(details[1..]);
        }
      }
    }
  }

  /**
   * An entry that passes the checks and whose url has text sends, each once,
   * exactly the pairs of its details that were not known for its url, with the
   * entry's url, host, time and target; `sites` gains those pairs under the url
   * and nothing else. An entry whose url has no text sends nothing, and raises
   * exactly when one of its pairs is new.
   */
  lemma ReportedEntrySends(entry: Entry, sites: Sites, hostOf: Option<string> -> string, reformat: string -> Option<string>)
    requires Reported(entry)
    ensures var ctx := ContextOf(entry, hostOf, reformat);
      var details := entry.details.value;
      var r := Handled(entry, sites, hostOf, reformat);
      && (forall e :: e in r.events ==>
            e == EventFor(ctx, (e.ip, e.asn)) && (e.ip, e.asn) in Pairs(details) && (e.ip, e.asn) !in Known(sites, ctx.url))
      && PairsDistinct(r.events)
      && (r.raised <==> ctx.url.None? && !(Pairs(details) <= Known(sites, ctx.url)))
      && (ctx.url.None? ==> r.events == [])
      && (ctx.url.Some? ==> forall p :: p in Pairs(details) && p !in Known(sites, ctx.url) ==> EventFor(ctx, p) in r.events)
      && (!r.raised ==> r.sites == if Pairs(details) == {} then sites else sites[ctx.url := Known(sites, ctx.url) + Pairs(details)])
  {
    var ctx := ContextOf(entry, hostOf, reformat);
    ScanSendsNew(ctx, entry.details.value, sites);
    if ctx.url.Some? {
      ScanSendsAllNew(ctx, entry.details.value, sites);
    }
    ScanSendsOnce(ctx, entry.details.value, sites);
    ScanRaises(ctx, entry.details.value, sites);
    ScanSites(ctx, entry.details.value, sites);
  }

  /** `sites` only grows: no url is forgotten and no pair dropped. */
  predicate Grows(sites: Sites, sites': Sites)
  {
    forall u :: u in sites ==> u in sites' && sites[u] <= sites'[u]
  }

  /** Every event's url and pair are remembered in `sites`. */
  predicate Remembers(sites: Sites, events: seq<Event>)
  {
    forall e :: e in events ==> e.url in sites && (e.ip, e.asn) in sites[e.url]
  }

  /** Nothing in `events` was already in `sites`. */
  predicate New(sites: Sites, events: seq<Event>)
  {
    forall e :: e in events ==> (e.ip, e.asn) !in Known(sites, e.url)
  }

  /** No two events share a url and a pair. */
  predicate Distinct(events: seq<Event>)
  {
    forall i, j :: 0 <= i < j < |events| ==> (events[i].url, events[i].ip, events[i].asn) != (events[j].url, events[j].ip, events[j].asn)
  }

  /** One entry: its events are new, distinct and remembered, and `sites` only grows. */
  lemma HandledSends(entry: Entry, sites: Sites, hostOf: Option<string> -> string, reformat: string -> Option<string>)
    ensures var r := Handled(entry, sites, hostOf, reformat);
      Grows(sites, r.sites) && Remembers(r.sites, r.events) && New(sites, r.events) && Distinct(r.events)
  {
    if Reported(entry) {
      var ctx := ContextOf(entry, hostOf, reformat);
      ScanSendsNew(ctx, entry.details.value, sites);
      ScanGrows(ctx, entry.details.value, sites);
      ScanSites(ctx, entry.details.value, sites);
      ScanRaises(ctx, entry.details.value, sites);
      ScanSendsOnce(ctx, entry.details.value, sites);
      var r := Scan(ctx, entry.details.value, sites);
      forall e | e in r.events
        ensures e.url == ctx.url
      {
        assert e == EventFor(ctx, (e.ip, e.asn));
      }
    }
  }

  /** Two runs one after the other, the second starting from the sites the first left. */
  lemma JoinSends(sites: Sites, first: Outcome, rest: Outcome)
    requires Grows(sites, first.sites) && Remembers(first.sites, first.events) && New(sites, first.events) && Distinct(first.events)
    requires Grows(first.sites, rest.sites) && Remembers(rest.sites, rest.events) && New(first.sites, rest.events) && Distinct(rest.events)
    ensures var events := first.events + rest.events;
      Grows(sites, rest.sites) && Remembers(rest.sites, events) && New(sites, events) && Distinct(events)
  {
    var events := first.events + rest.events;
    forall i, j | 0 <= i < j < |events|
      ensures (events[i].url, events[i].ip, events[i].asn) != (events[j].url, events[j].ip, events[j].asn)
    {
      if j < |first.events| {
        assert events[i] == first.events[i] && events[j] == first.events[j];
      } else if i >= |first.events| {
        assert events[i] == rest.events[i - |first.events|] && events[j] == rest.events[j - |first.events|];
      } else {
        assert events[i] in first.events && events[j] in rest.events;
      }
    }
    forall e | e in events
      ensures (e.ip, e.asn) !in Known(sites, e.url)
    {
      if e in rest.events {
        assert (e.ip, e.asn) !in Known(first.sites, e.url);
      }
    }
  }

  /**
   * Over a whole poll each (url, ip, announcing network) is sent at most once,
   * and never one that was in `sites` when the poll began.
   */
  lemma {:induction false} PollSendsOnce(entries: seq<Entry>, sites: Sites, hostOf: Option<string> -> string, reformat: string -> Option<string>)
    ensures var r := HandledAll(entries, sites, hostOf, reformat);
      Grows(sites, r.sites) && Remembers(r.sites, r.events) && New(sites, r.events) && Distinct(r.events)
    decreases |entries|
  {
    if entries != [] {
      var first := Handled(entries[0], sites, hostOf, reformat);
      HandledSends(entries[0], sites, hostOf, reformat);
      if !first.raised {
        var rest := HandledAll(entries[1..], first.sites, hostOf, reformat);
        PollSendsOnce(entries[1..], first.sites, hostOf, reformat);
        assert HandledAll(entries, sites, hostOf, reformat) == Outcome(first.events + rest.events, rest.sites, rest.raised);
        JoinSends(sites, first, rest);
      }
    }
  }
}
