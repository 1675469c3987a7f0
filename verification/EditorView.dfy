/** What the editor shows: type errors are grouped into diagnostics per path and published
    (client/commands/type_error_handler.py) by the handlers of one subscription
    (client/commands/persistent.py, client/commands/launch_and_subscribe_handler.py).

    A publish replaces what the editor shows for one path ("PublishDiagnostics Notification",
    Language Server Protocol 3.17). Every `await` may raise: by cancellation, by a lost
    connection or by a failed write. Which ones do is the plan of a run, and all statements are
    for every plan. Unsaved changes are off: nobody else publishes, and DaemonProtocol shows that
    no two subscriptions overlap. */
module EditorView {

  type Path(==, !new)

  datatype TypeError = TypeError(path: Path, line: int, column: int, stopLine: int, stopColumn: int,
                                 code: int, name: string, description: string)

  datatype Severity = Error | Warning

  datatype Diagnostic = Diagnostic(startLine: int, startCharacter: int, endLine: int, endCharacter: int,
                                   message: string, severity: Severity, code: (string, int))

  type Diagnostics = map<Path, seq<Diagnostic>>

  function ToDiagnostic(e: TypeError, setUnusedAsWarning: bool): Diagnostic {
    Diagnostic(e.line - 1, e.column, e.stopLine - 1, e.stopColumn, e.description,
               if setUnusedAsWarning && e.code == 0 then Warning else Error, (e.name, e.code))
  }

  function At(d: Diagnostics, p: Path): seq<Diagnostic> {
    if p in d then d[p] else []
  }

  /** The diagnostics of one path, in the order of the errors. */
  function ForPath(errors: seq<TypeError>, p: Path, unused: bool): seq<Diagnostic> {
    if errors == [] then []
    else
      var before := ForPath(errors[..|errors| - 1], p, unused);
      var e := errors[|errors| - 1];
      if e.path == p then before + [ToDiagnostic(e, unused)] else before
  }

  ghost function Grouping(errors: seq<TypeError>, unused: bool): Diagnostics {
    map p | p in (set e | e in errors :: e.path) :: ForPath(errors, p, unused)
  }

  /** How many of the first `n` errors are on the path. */
  ghost function CountOn(errors: seq<TypeError>, n: nat, p: Path): (count: nat)
    requires n <= |errors|
    ensures n == 0 ==> count == 0
  {
    var places := set i | 0 <= i < n && errors[i].path == p;
    assert n == 0 ==> places == {};
    |places|
  }

  /** The diagnostic of an error: lines count from zero, everything else is taken over, and only an
      unused ignore may be a warning. */
  ghost predicate IsDiagnosticOf(d: Diagnostic, e: TypeError, unused: bool) {
    && d.startLine == e.line - 1 && d.startCharacter == e.column
    && d.endLine == e.stopLine - 1 && d.endCharacter == e.stopColumn
    && d.message == e.description && d.code.0 == e.name && d.code.1 == e.code
    && (d.severity == Warning <==> unused && e.code == 0)
  }

  /** The list of the path has one diagnostic per error, in the order of the errors. */
  ghost predicate IsListOf(list: seq<Diagnostic>, errors: seq<TypeError>, p: Path, unused: bool) {
    && |list| == CountOn(errors, |errors|, p)
    && forall i :: 0 <= i < |errors| && errors[i].path == p ==>
         CountOn(errors, i, p) < |list| && IsDiagnosticOf(list[CountOn(errors, i, p)], errors[i], unused)
  }

  lemma CountOnNext(errors: seq<TypeError>, n: nat, p: Path)
    requires n < |errors|
    ensures CountOn(errors, n + 1, p) == CountOn(errors, n, p) + if errors[n].path == p then 1 else 0
  {
    var before := set i | 0 <= i < n && errors[i].path == p;
    var after := set i | 0 <= i < n + 1 && errors[i].path == p;
    assert after == if errors[n].path == p then before + {n} else before;
  }

  lemma CountOnPrefix(errors: seq<TypeError>, m: nat, n: nat, p: Path)
    requires n <= m <= |errors|
    ensures CountOn(errors[..m], n, p) == CountOn(errors, n, p) <= CountOn(errors, m, p)
  {
    assert (set i | 0 <= i < n && errors[..m][i].path == p) == (set i | 0 <= i < n && errors[i].path == p);
    if n < m {
      CountOnPrefix(errors, m - 1, n, p);
      CountOnNext(errors, m - 1, p);
    }
  }

  /** No error is lost, repeated or reordered. */
  lemma {:induction false} ErrorsKeepTheirPlaces(errors: seq<TypeError>, p: Path, unused: bool)
    ensures IsListOf(ForPath(errors, p, unused), errors, p, unused)
  {
    if errors == [] {
    } else {
      var n := |errors| - 1;
      var shorter := errors[..n];
      var before, list := ForPath(shorter, p, unused), ForPath(errors, p, unused);
      ErrorsKeepTheirPlaces(shorter, p, unused);
      CountOnNext(errors, n, p);
      CountOnPrefix(errors, n, n, p);
      forall i | 0 <= i < |errors| && errors[i].path == p
        ensures CountOn(errors, i, p) < |list| && IsDiagnosticOf(list[CountOn(errors, i, p)], errors[i], unused)
      {
        if i < n {
          CountOnPrefix(errors, n, i, p);
          assert shorter[i] == errors[i];
          assert list[CountOn(errors, i, p)] == before[CountOn(shorter, i, p)];
        }
      }
    }
  }

  lemma GroupingAt(errors: seq<TypeError>, p: Path, unused: bool)
    ensures At(Grouping(errors, unused), p) == ForPath(errors, p, unused)
  {
  }

  method TypeErrorsToDiagnostics(errors: seq<TypeError>, unused: bool) returns (result: Diagnostics)
    ensures result == Grouping(errors, unused)
    ensures forall p :: p in result <==> exists e :: e in errors && e.path == p
    ensures forall p :: p in result ==> IsListOf(result[p], errors, p, unused)
  {
    result := map[];
    for i := 0 to |errors|
      invariant result == Grouping(errors[..i], unused)
    {
      var e := errors[i];
      assert errors[..i + 1][..i] == errors[..i];
      GroupingAt(errors[..i], e.path, unused);
      result := result[e.path := At(result, e.path) + [ToDiagnostic(e, unused)]];
    }
    assert errors[..|errors|] == errors;
    forall p | p in result ensures IsListOf(result[p], errors, p, unused) {
      ErrorsKeepTheirPlaces(errors, p, unused);
    }
  }

  // ----- The invariant of the editor's view

  /** The editor shows nothing for the path, or exactly the current diagnostics. */
  ghost predicate FaithfulAt(diagnostics: Diagnostics, view: Diagnostics, p: Path) {
    At(view, p) == [] || (p in diagnostics && At(view, p) == diagnostics[p])
  }

  ghost predicate Faithful(diagnostics: Diagnostics, view: Diagnostics) {
    forall p :: FaithfulAt(diagnostics, view, p)
  }

  ghost predicate Blank(view: Diagnostics) {
    forall p :: At(view, p) == []
  }

  // ----- Interruptions

  /** So many `await`s pass, then one raises; if that one publishes, it may or may not have taken
      effect. */
  datatype Cut = Cut(passes: nat, published: bool)

  /** One cut after the other; after the last, everything passes. */
  type Plan = seq<Cut>

  predicate Passes(plan: Plan, n: nat) {
    plan == [] || n <= plan[0].passes
  }

  /** The plan after `n` passed `await`s. */
  function After(plan: Plan, n: nat): Plan
    requires Passes(plan, n)
  {
    if plan == [] then [] else plan[0 := plan[0].(passes := plan[0].passes - n)]
  }

  /** The plan after `n` `await`s in a row, of which one may have raised. */
  function Consumed(plan: Plan, n: nat): Plan {
    if Passes(plan, n) then After(plan, n) else plan[1..]
  }

  lemma AfterOneMore(plan: Plan, n: nat, total: nat)
    requires Passes(plan, n) && n < total
    ensures Passes(After(plan, n), 1) <==> Passes(plan, n + 1)
    ensures Passes(plan, n + 1) ==> Consumed(After(plan, n), 1) == After(plan, n + 1)
    ensures !Passes(plan, n + 1) ==> !Passes(plan, total) && Consumed(After(plan, n), 1) == Consumed(plan, total)
  {
  }

  lemma FewerThanAll(some: set<Path>, all: set<Path>)
    requires some < all
    ensures |some| < |all| && all - some != {}
  {
    assert |all - some| == |all| - |some|;
  }

  // ----- Subscriptions

  datatype Event = TypeErrors(errors: seq<TypeError>) | StatusUpdate | ErrorEvent | IncrementalTelemetry

  /** One connection: whether type errors are enabled, the first response and what follows it,
      until the connection ends. */
  datatype Session = Session(typeErrorsEnabled: bool, first: seq<TypeError>, events: seq<Event>)
  {
    /** Among the first `n` messages, the first response included, one has an error on the path. */
    ghost predicate Mentions(n: nat, p: Path) {
      || (n > 0 && typeErrorsEnabled && p in Grouping(first, false))
      || exists k :: 0 <= k < |events| && k + 1 < n && EventMentions(events[k], p)
    }

    /** Among the first `n` messages is an event that replaces the diagnostics. */
    ghost predicate Replaces(n: nat) {
      exists k :: 0 <= k < |events| && k + 1 < n && events[k].TypeErrors?
    }

    /** The message with this number, the first response being number 0, says what is to be shown. */
    predicate Decides(k: nat)
      requires k <= |events|
    {
      if k == 0 then typeErrorsEnabled
      else events[k - 1].TypeErrors? || (events[k - 1].StatusUpdate? && typeErrorsEnabled)
    }

    /** What it says for a path: its errors, or nothing while the server is busy. */
    ghost function Says(k: nat, p: Path): seq<Diagnostic>
      requires k <= |events|
    {
      if k == 0 then ForPath(first, p, false)
      else if events[k - 1].TypeErrors? then ForPath(events[k - 1].errors, p, false)
      else []
    }

    /** None of the messages from number `k` up to number `n` decides. */
    ghost predicate Quiet(k: nat, n: nat)
      requires n <= 1 + |events|
    {
      forall j :: k <= j < n ==> !Decides(j)
    }

    /** The latest word of the first `n` messages on a path that showed `before`. */
    ghost predicate IsLatestWord(n: nat, p: Path, before: seq<Diagnostic>, list: seq<Diagnostic>) {
      n <= 1 + |events| ==>
        && (forall k :: 0 <= k < n && Decides(k) && Quiet(k + 1, n) ==> list == Says(k, p))
        && (Quiet(0, n) ==> list == before)
    }

    /** No message is handled after an error event, which ends the subscription. */
    ghost predicate NoneAfterError(begun: nat) {
      forall k :: 0 <= k < |events| && k + 2 < begun ==> !events[k].ErrorEvent?
    }

    /** All messages were handled, or all up to an error event. */
    predicate IsComplete(handled: nat) {
      handled == 1 + |events| || (1 < handled <= |events| && events[handled - 2].ErrorEvent?)
    }

    ghost predicate MentionsEver(p: Path) {
      Mentions(1 + |events|, p)
    }
  }

  ghost predicate EventMentions(e: Event, p: Path) {
    e.TypeErrors? && p in Grouping(e.errors, false)
  }

  /** How far a subscription came: the number of messages handled to the end, the first response
      included, and whether it ended between two messages rather than inside one. */
  datatype Received = Received(handled: nat, between: bool)
  {
    /** The number of messages whose handling began. */
    function Begun(): nat {
      if between then handled else handled + 1
    }
  }

  /** How the clean-up ended; if while clearing, with the paths that were cleared. */
  datatype CleanUp = Completed | CutAtMessage | CutWhileClearing(cleared: set<Path>)

  /** The current diagnostics and what the editor shows. */
  datatype Editor = Editor(diagnostics: Diagnostics, view: Diagnostics)

  class SubscriptionHandler {
    var diagnostics: Diagnostics
    var view: Diagnostics
    var plan: Plan

    constructor (plan: Plan)
      ensures Blank(view) && diagnostics == map[] && this.plan == plan
    {
      diagnostics, view, this.plan := map[], map[], plan;
    }

    function Now(): Editor
      reads this
    {
      Editor(diagnostics, view)
    }

    method Await() returns (raised: bool, published: bool)
      modifies this`plan
      ensures raised == !Passes(old(plan), 1) && plan == Consumed(old(plan), 1)
      ensures !raised ==> published
    {
      raised := plan != [] && plan[0].passes == 0;
      published := !raised || plan[0].published;
      if raised {
        plan := plan[1..];
      } else if plan != [] {
        plan := plan[0 := plan[0].(passes := plan[0].passes - 1)];
      }
    }

    /** An `await` that publishes nothing. */
    method Pause() returns (raised: bool)
      modifies this`plan
      ensures raised == !Passes(old(plan), 1) && plan == Consumed(old(plan), 1)
    {
      var published;
      raised, published := Await();
    }

    method PublishDiagnostics(p: Path, list: seq<Diagnostic>) returns (raised: bool, published: bool)
      modifies this`plan, this`view
      ensures raised == !Passes(old(plan), 1) && plan == Consumed(old(plan), 1)
      ensures !raised ==> published
      ensures forall q :: At(view, q) == if q == p && published then list else At(old(view), q)
    {
      raised, published := Await();
      if published {
        view := view[p := list];
      }
    }

    method UpdateTypeErrors(errors: seq<TypeError>)
      modifies this`diagnostics
      ensures diagnostics == Grouping(errors, false)
    {
      diagnostics := TypeErrorsToDiagnostics(errors, false);
    }

    /** Publishes one list per path, in any order, until an `await` raises. */
    method PublishAll(lists: Diagnostics) returns (ok: bool, done: set<Path>)
      modifies this`plan, this`view
      ensures ok == Passes(old(plan), |lists|) && plan == Consumed(old(plan), |lists|)
      ensures done <= lists.Keys && (ok ==> done == lists.Keys)
      ensures forall p :: At(view, p) == if p in done then lists[p] else At(old(view), p)
    {
      done := {};
      ghost var n := |done|;
      while done != lists.Keys
        invariant done <= lists.Keys && n == |done|
        invariant Passes(old(plan), n) && plan == After(old(plan), n)
        invariant forall p :: At(view, p) == if p in done then lists[p] else At(old(view), p)
        decreases lists.Keys - done
      {
        FewerThanAll(done, lists.Keys);
        var p :| p in lists.Keys - done;
        AfterOneMore(old(plan), n, |lists|);
        var raised, published := PublishDiagnostics(p, lists[p]);
        if published {
          done, n := done + {p}, n + 1;
        }
        if raised { return false, done; }
      }
      return true, done;
    }

    /** Only paths of the current diagnostics are cleared: all of them, if it completes. */
    method ClearTypeErrorsForClient() returns (ok: bool, cleared: set<Path>)
      modifies this`plan, this`view
      ensures ok == Passes(old(plan), |diagnostics|) && plan == Consumed(old(plan), |diagnostics|)
      ensures cleared <= diagnostics.Keys && (ok ==> cleared == diagnostics.Keys)
      ensures forall p :: At(view, p) == if p in cleared then [] else At(old(view), p)
    {
      var lists := map p | p in diagnostics :: [];
      assert lists.Keys == diagnostics.Keys;
      ok, cleared := PublishAll(lists);
    }

    method ShowTypeErrorsToClient() returns (ok: bool)
      modifies this`plan, this`view
      ensures ok == Passes(old(plan), |diagnostics|) && plan == Consumed(old(plan), |diagnostics|)
      ensures forall p :: At(view, p) == At(old(view), p) || (p in diagnostics && At(view, p) == diagnostics[p])
      ensures ok ==> forall p :: At(view, p) == if p in diagnostics then diagnostics[p] else At(old(view), p)
    {
      var shown;
      ok, shown := PublishAll(diagnostics);
    }

    /** The first response replaces the diagnostics and is shown without clearing the editor. When
        it has been shown, the view is faithful exactly when every path that showed something has
        an error in the response; the other paths keep what they showed. */
    method ShowFirstResponse(first: seq<TypeError>) returns (ok: bool)
      modifies this
      ensures ok == Passes(old(plan), |Grouping(first, false)|)
      ensures plan == Consumed(old(plan), |Grouping(first, false)|)
      ensures diagnostics == Grouping(first, false)
      ensures forall p :: At(view, p) == At(old(view), p) || (p in diagnostics && At(view, p) == diagnostics[p])
      ensures ok ==> forall p :: At(view, p) == if p in diagnostics then diagnostics[p] else At(old(view), p)
      ensures ok ==> (Faithful(diagnostics, view) <==>
                      forall p :: At(old(view), p) == [] || p in Grouping(first, false))
    {
      UpdateTypeErrors(first);
      ok := ShowTypeErrorsToClient();
      if ok {
        assert forall p :: FaithfulAt(diagnostics, view, p) <==> At(old(view), p) == [] || p in diagnostics;
      }
    }

    /** Clear, replace, show. From any state, when it completes, a path is faithful exactly when it
        showed nothing, was among the diagnostics, or has an error in this event. */
    method HandleTypeErrorEvent(errors: seq<TypeError>) returns (ok: bool)
      modifies this
      ensures forall p :: old(FaithfulAt(diagnostics, view, p)) ==> FaithfulAt(diagnostics, view, p)
      ensures ok ==> diagnostics == Grouping(errors, false)
      ensures ok ==> forall p :: FaithfulAt(diagnostics, view, p) <==>
                At(old(view), p) == [] || p in old(diagnostics) || p in Grouping(errors, false)
      ensures ok ==> forall p :: FaithfulAt(diagnostics, view, p) ==> At(view, p) == ForPath(errors, p, false)
      ensures forall p :: p !in old(diagnostics) && p !in Grouping(errors, false) ==>
                p !in diagnostics && At(view, p) == At(old(view), p)
      ensures forall p :: p in old(diagnostics) ==> p in diagnostics || FaithfulAt(diagnostics, view, p)
      ensures old(plan) == [] ==> ok && plan == []
    {
      var cleared;
      ok, cleared := ClearTypeErrorsForClient();
      if !ok { return; }
      UpdateTypeErrors(errors);
      ok := ShowTypeErrorsToClient();
      if !ok { return; }
      forall p ensures At(diagnostics, p) == ForPath(errors, p, false) {
        GroupingAt(errors, p, false);
      }
      var raised := Pause();  // the status message
      ok := !raised;
    }

    method HandleStatusUpdateEvent(typeErrorsEnabled: bool) returns (ok: bool)
      modifies this`plan, this`view
      ensures forall p :: old(FaithfulAt(diagnostics, view, p)) ==> FaithfulAt(diagnostics, view, p)
      ensures ok && typeErrorsEnabled ==>
                forall p :: At(view, p) == if p in diagnostics then [] else At(old(view), p)
      ensures !typeErrorsEnabled ==> view == old(view)
      ensures forall p :: p !in diagnostics ==> At(view, p) == At(old(view), p)
      ensures old(plan) == [] ==> ok && plan == []
    {
      if typeErrorsEnabled {
        var cleared;
        ok, cleared := ClearTypeErrorsForClient();
        if !ok { return; }
      }
      var raised := Pause();  // the status message
      ok := !raised;
    }

    /** One message of the subscription loop. */
    method HandleEvent(session: Session, k: nat) returns (ok: bool)
      requires k < |session.events|
      modifies this
      ensures forall p :: old(FaithfulAt(diagnostics, view, p)) ==> FaithfulAt(diagnostics, view, p)
      ensures forall p :: p !in old(diagnostics) && !EventMentions(session.events[k], p) ==>
                p !in diagnostics && At(view, p) == At(old(view), p)
      ensures ok ==> forall p :: EventMentions(session.events[k], p) ==> FaithfulAt(diagnostics, view, p)
      ensures forall p :: p in old(diagnostics) ==> p in diagnostics || FaithfulAt(diagnostics, view, p)
      ensures ok && session.events[k].TypeErrors? ==>
                forall p :: p in old(diagnostics) ==> FaithfulAt(diagnostics, view, p)
      ensures !session.events[k].TypeErrors? ==>
                diagnostics == old(diagnostics) && (session.typeErrorsEnabled || view == old(view))
      ensures ok ==> forall p :: At(view, p) == AfterEvent(session, k, old(Now()), p)
      ensures old(plan) == [] ==> ok && plan == []
    {
      match session.events[k] {
        case TypeErrors(errors) => ok := HandleTypeErrorEvent(errors);
        case StatusUpdate => ok := HandleStatusUpdateEvent(session.typeErrorsEnabled);
        case ErrorEvent => ok := true;  // raises once the message is logged
        case IncrementalTelemetry => ok := true;
      }
    }

    /** Reads and handles one message; how far the subscription has come then. */
    method NextMessage(session: Session, k: nat, ghost start: Editor) returns (r: Received)
      requires k < |session.events|
      requires Settled(session, session.typeErrorsEnabled, Received(k + 1, true), start, Now())
      requires Untouched(session, start, Now())
      modifies this
      ensures r == Received(k + 2, true) || r.handled == k + 1
      ensures old(plan) == [] ==> r == Received(k + 2, true) && plan == []
      ensures old(Faithful(diagnostics, view)) ==> Faithful(diagnostics, view)
      ensures Settled(session, session.typeErrorsEnabled, r, start, Now())
      ensures Untouched(session, start, Now())
    {
      ghost var before := Now();
      var raised := Pause();  // reading or parsing the next response
      if raised { return Received(k + 1, true); }
      var ok := HandleEvent(session, k);
      UntouchedByEvent(session, k, start, before, Now());
      SettledByEvent(session, k, ok, start, before, Now());
      r := if ok then Received(k + 2, true) else Received(k + 1, false);
    }

    /** `_run_subscription_loop`, until the connection ends or an `await` raises. `start` is how the
        subscription began. */
    method RunSubscriptionLoop(session: Session, ghost start: Editor) returns (r: Received)
      requires Settled(session, session.typeErrorsEnabled, Received(1, true), start, Now())
      requires Untouched(session, start, Now())
      modifies this
      ensures 1 <= r.handled <= 1 + |session.events| && session.NoneAfterError(r.Begun())
      ensures old(plan) == [] ==> r.between && plan == [] && session.IsComplete(r.handled)
      ensures old(Faithful(diagnostics, view)) ==> Faithful(diagnostics, view)
      ensures Settled(session, session.typeErrorsEnabled, r, start, Now())
      ensures Untouched(session, start, Now())
      ensures session.events == [] ==> r == Received(1, true) && unchanged(this)
    {
      r := Received(1, true);
      for k := 0 to |session.events|
        invariant r == Received(k + 1, true) && session.NoneAfterError(k + 2)
        invariant old(plan) == [] ==> plan == []
        invariant old(Faithful(diagnostics, view)) ==> Faithful(diagnostics, view)
        invariant Settled(session, session.typeErrorsEnabled, r, start, Now())
        invariant Untouched(session, start, Now())
        invariant session.events == [] ==> unchanged(this)
      {
        r := NextMessage(session, k, start);
        if r.handled == k + 1 || session.events[k].ErrorEvent? {
          return;  // an `await` raised, or the daemon shuts down
        }
      }
    }

    /** The beginning of a subscription, up to its first response. */
    method BeginSubscription(session: Session) returns (r: Received)
      modifies this
      ensures r in {Received(0, true), Received(0, false), Received(1, true)}
      ensures old(plan) == [] ==> r == Received(1, true) && plan == []
      ensures r.Begun() == 0 ==> Now() == old(Now())
      ensures Settled(session, Shows(session, r), r, old(Now()), Now())
      ensures Untouched(session, old(Now()), Now())
      ensures session.typeErrorsEnabled ==>
                && plan == Consumed(old(plan), 2 + |Grouping(session.first, false)|)
                && (r == Received(1, true) <==> Passes(old(plan), 2 + |Grouping(session.first, false)|))
                && (r == Received(1, true) ==> forall p :: p in Grouping(session.first, false) ==>
                                                 At(view, p) == Grouping(session.first, false)[p])
    {
      SettledAtStart(session, Now());
      var raised := Pause();  // subscribing
      if raised { return Received(0, true); }
      raised := Pause();  // reading the response
      if raised { return Received(0, true); }
      if session.typeErrorsEnabled {
        var ok := ShowFirstResponse(session.first);
        UntouchedByFirst(session, old(Now()), Now());
        SettledByFirst(session, ok, old(Now()), Now());
        if !ok { return Received(0, false); }
      }
      return Received(1, true);
    }

    /** `_subscribe`: the first response, then the loop. */
    method ReceiveEvents(session: Session) returns (r: Received)
      modifies this
      ensures r.handled <= 1 + |session.events| && session.NoneAfterError(r.Begun())
      ensures old(plan) == [] ==> r.between && plan == [] && session.IsComplete(r.handled)
      ensures r.Begun() == 0 ==> Now() == old(Now())
      ensures Settled(session, Shows(session, r), r, old(Now()), Now())
      ensures old(Blank(view)) ==> Faithful(diagnostics, view)
      ensures Untouched(session, old(Now()), Now())
      ensures session.typeErrorsEnabled && session.events == [] ==>
                && plan == Consumed(old(plan), 2 + |Grouping(session.first, false)|)
                && (r == Received(1, true) <==> Passes(old(plan), 2 + |Grouping(session.first, false)|))
                && (r == Received(1, true) ==> forall p :: p in Grouping(session.first, false) ==>
                                                 At(view, p) == Grouping(session.first, false)[p])
    {
      r := BeginSubscription(session);
      if r == Received(1, true) {
        r := RunSubscriptionLoop(session, old(Now()));
      }
      FaithfulIfBlank(session, Shows(session, r), r, old(Now()), Now());
    }

    /** The `finally` block of `subscribe`. */
    method CleanUpClient() returns (c: CleanUp)
      modifies this
      ensures IsCleanUp(c, old(Now()), Now())
      ensures forall p :: old(FaithfulAt(diagnostics, view, p)) ==> FaithfulAt(diagnostics, view, p)
      ensures c.Completed? ==> (Faithful(diagnostics, view) <==>
                                forall p :: At(old(view), p) == [] || p in old(diagnostics))
      ensures c.CutAtMessage? <==> !Passes(old(plan), 1)
      ensures c.CutAtMessage? ==> view == old(view) && plan == old(plan)[1..]
      ensures old(plan) == [] ==> c.Completed? && plan == []
    {
      var raised := Pause();  // the status message
      if raised { return CutAtMessage; }
      var ok, cleared := ClearTypeErrorsForClient();
      if !ok { return CutWhileClearing(cleared); }
      assert forall p :: FaithfulAt(map[], view, p) <==> At(old(view), p) == [] || p in diagnostics;
      diagnostics := map[];
      return Completed;
    }

    /** `subscribe`: receive messages, then clean up. From any editor, for every session and every
        interruption, each path that is right is faithful afterwards and each one that is not keeps
        what it shows and is unfaithful. Whether it is right can be told from the messages: those
        handled in the first case, those begun in the second, so that the view is faithful exactly
        when all paths are right, if no message was handled halfway. From a blank editor the view is
        always faithful, and blank after a completed clean-up. What a settled path shows before it is
        cleared is the latest word of the messages. */
    method Subscribe(session: Session) returns (r: Received, c: CleanUp)
      modifies this
      ensures session.NoneAfterError(r.Begun())
      ensures old(plan) == [] ==> r.between && c.Completed? && session.IsComplete(r.handled)
      ensures IsExact(session, r, c, old(Now()), Now())
      ensures r.between ==> (Faithful(diagnostics, view) <==>
                             forall p :: IsRight(session, r, c, r.handled, old(Now()), p))
      ensures old(Blank(view)) ==> Faithful(diagnostics, view)
      ensures c.Completed? ==> diagnostics == map[] && (Faithful(diagnostics, view) <==> Blank(view))
      ensures Untouched(session, old(Now()), Now())
      ensures session.typeErrorsEnabled && session.events == [] && old(plan) == [] ==>
                r == Received(1, true) && c.Completed? && plan == []
      ensures session.typeErrorsEnabled && session.events == [] && old(plan) != []
              && old(plan)[0].passes == 2 + |Grouping(session.first, false)| ==>
                && r == Received(1, true) && c.CutAtMessage? && plan == old(plan)[1..]
                && forall p :: p in Grouping(session.first, false) ==> At(view, p) == Grouping(session.first, false)[p]
    {
      r := ReceiveEvents(session);
      ghost var received := Now();
      c := CleanUpClient();
      SettledIsExact(session, r, c, old(Now()), received, Now());
      ExactWhenBetween(session, r, c, old(Now()), Now());
      if c.Completed? {
        FaithfulWithoutDiagnostics(view);
      }
    }
  }

  // ----- What a subscription does to a path

  /** What a path shows after an event that was handled: a replaced path its new diagnostics, a path
      blanked by a status update nothing, any other path what it did. */
  ghost function AfterEvent(session: Session, k: nat, before: Editor, p: Path): seq<Diagnostic>
    requires k < |session.events|
  {
    match session.events[k]
    case TypeErrors(errors) =>
      if p in before.diagnostics || p in Grouping(errors, false) then ForPath(errors, p, false) else At(before.view, p)
    case StatusUpdate =>
      if session.typeErrorsEnabled && p in before.diagnostics then [] else At(before.view, p)
    case _ => At(before.view, p)
  }

  /** The first response has replaced the diagnostics. */
  predicate Shows(session: Session, r: Received) {
    session.typeErrorsEnabled && r.Begun() > 0
  }

  /** What the first `n` messages should make faithful. If the first response is shown, it takes the
      place of all diagnostics: the paths that were blank or that some message mentions. Otherwise:
      those that were faithful, that some message mentions, or that were among the diagnostics which
      some event cleared and replaced. */
  ghost predicate IsSettled(session: Session, shows: bool, n: nat, start: Editor, p: Path) {
    if shows then At(start.view, p) == [] || session.Mentions(n, p)
    else
      || FaithfulAt(start.diagnostics, start.view, p) || session.Mentions(n, p)
      || (p in start.diagnostics && session.Replaces(n))
  }

  /** Moreover, if no first response was shown, what a clean-up makes faithful. */
  ghost predicate IsRight(session: Session, r: Received, c: CleanUp, n: nat, start: Editor, p: Path) {
    || IsSettled(session, Shows(session, r), n, start, p)
    || (!Shows(session, r) && c.Completed? && p in start.diagnostics)
    || (!Shows(session, r) && c.CutWhileClearing? && p in c.cleared)
  }

  /** How a subscription leaves every path. */
  ghost predicate IsExact(session: Session, r: Received, c: CleanUp, start: Editor, end: Editor) {
    && (forall p :: IsRight(session, r, c, r.handled, start, p) ==> FaithfulAt(end.diagnostics, end.view, p))
    && (forall p :: !IsRight(session, r, c, r.Begun(), start, p) ==>
          At(end.view, p) == At(start.view, p) && !FaithfulAt(end.diagnostics, end.view, p))
    && (forall p :: !IsRight(session, r, c, r.Begun(), start, p) && p in end.diagnostics ==>
          p in start.diagnostics && !Shows(session, r))
    && (r.between && !c.Completed? ==> forall p :: IsSettled(session, Shows(session, r), r.handled, start, p) ==>
          || (c.CutWhileClearing? && p in c.cleared)
          || session.IsLatestWord(r.handled, p, At(start.view, p), At(end.view, p)))
  }

  lemma ExactWhenBetween(session: Session, r: Received, c: CleanUp, start: Editor, end: Editor)
    requires IsExact(session, r, c, start, end)
    ensures r.between ==> (Faithful(end.diagnostics, end.view) <==>
                           forall p :: IsRight(session, r, c, r.handled, start, p))
    ensures Blank(start.view) ==> Faithful(end.diagnostics, end.view)
  {
  }

  /** The state between start and clean-up. A settled path is faithful. One that no message begun
      can have settled shows what it did, and its diagnostics, if any, are those of the start. Unless
      the first response was shown, diagnostics of the start are still there or have been cleared. */
  ghost predicate Settled(session: Session, shows: bool, r: Received, start: Editor, now: Editor) {
    && (forall p :: IsSettled(session, shows, r.handled, start, p) ==> FaithfulAt(now.diagnostics, now.view, p))
    && (forall p :: !IsSettled(session, shows, r.Begun(), start, p) ==>
          && At(now.view, p) == At(start.view, p)
          && (p in now.diagnostics ==>
                !shows && p in start.diagnostics && now.diagnostics[p] == start.diagnostics[p]))
    && (!shows ==> forall p :: p in start.diagnostics ==>
          p in now.diagnostics || FaithfulAt(now.diagnostics, now.view, p))
    && (r.between ==> forall p :: IsSettled(session, shows, r.handled, start, p) ==>
          session.IsLatestWord(r.handled, p, At(start.view, p), At(now.view, p)))
  }

  /** A path outside the diagnostics that no message mentions stays as it was. */
  ghost predicate Untouched(session: Session, start: Editor, now: Editor) {
    forall p :: p !in start.diagnostics && !session.MentionsEver(p) ==>
      p !in now.diagnostics && At(now.view, p) == At(start.view, p)
  }

  lemma OneMoreMessage(session: Session, k: nat)
    requires k < |session.events|
    ensures forall p :: session.Mentions(k + 2, p) <==>
              session.Mentions(k + 1, p) || EventMentions(session.events[k], p)
    ensures session.Replaces(k + 2) <==> session.Replaces(k + 1) || session.events[k].TypeErrors?
  {
    forall p
      ensures session.Mentions(k + 2, p) <==> session.Mentions(k + 1, p) || EventMentions(session.events[k], p)
    {
      assert EventMentions(session.events[k], p) ==> session.Mentions(k + 2, p);
    }
  }

  lemma UntouchedByEvent(session: Session, k: nat, start: Editor, before: Editor, now: Editor)
    requires k < |session.events| && Untouched(session, start, before)
    requires forall p :: p !in before.diagnostics && !EventMentions(session.events[k], p) ==>
               p !in now.diagnostics && At(now.view, p) == At(before.view, p)
    ensures Untouched(session, start, now)
  {
  }

  lemma SettledByEvent(session: Session, k: nat, ok: bool, start: Editor, before: Editor, now: Editor)
    requires k < |session.events|
    requires Settled(session, session.typeErrorsEnabled, Received(k + 1, true), start, before)
    requires forall p :: FaithfulAt(before.diagnostics, before.view, p) ==> FaithfulAt(now.diagnostics, now.view, p)
    requires forall p :: p !in before.diagnostics && !EventMentions(session.events[k], p) ==>
               p !in now.diagnostics && At(now.view, p) == At(before.view, p)
    requires ok ==> forall p :: EventMentions(session.events[k], p) ==> FaithfulAt(now.diagnostics, now.view, p)
    requires forall p :: p in before.diagnostics ==> p in now.diagnostics || FaithfulAt(now.diagnostics, now.view, p)
    requires ok && session.events[k].TypeErrors? ==>
               forall p :: p in before.diagnostics ==> FaithfulAt(now.diagnostics, now.view, p)
    requires !session.events[k].TypeErrors? ==>
               now.diagnostics == before.diagnostics && (session.typeErrorsEnabled || now.view == before.view)
    requires ok ==> forall p :: At(now.view, p) == AfterEvent(session, k, before, p)
    ensures Settled(session, session.typeErrorsEnabled,
                    if ok then Received(k + 2, true) else Received(k + 1, false), start, now)
  {
    OneMoreMessage(session, k);
    if ok {
      forall p | IsSettled(session, session.typeErrorsEnabled, k + 2, start, p)
        ensures session.IsLatestWord(k + 2, p, At(start.view, p), At(now.view, p))
      {
        LatestWordAfterEvent(session, k, start, before, now, p);
      }
    }
  }

  lemma {:induction false} LatestWordGrows(session: Session, k: nat, p: Path, start: seq<Diagnostic>,
                                           before: seq<Diagnostic>, now: seq<Diagnostic>)
    requires k < |session.events|
    requires if session.Decides(k + 1) then now == session.Says(k + 1, p)
             else now == before && session.IsLatestWord(k + 1, p, start, before)
    ensures session.IsLatestWord(k + 2, p, start, now)
  {
    forall i | 0 <= i < k + 2 && session.Decides(i) && session.Quiet(i + 1, k + 2) ensures now == session.Says(i, p) {
      if i <= k {
        assert !session.Decides(k + 1) && session.Quiet(i + 1, k + 1);
      }
    }
    if session.Quiet(0, k + 2) {
      assert !session.Decides(k + 1) && session.Quiet(0, k + 1);
    }
  }

  lemma LatestWordAfterEvent(session: Session, k: nat, start: Editor, before: Editor, now: Editor, p: Path)
    requires k < |session.events|
    requires Settled(session, session.typeErrorsEnabled, Received(k + 1, true), start, before)
    requires IsSettled(session, session.typeErrorsEnabled, k + 2, start, p)
    requires At(now.view, p) == AfterEvent(session, k, before, p)
    ensures session.IsLatestWord(k + 2, p, At(start.view, p), At(now.view, p))
  {
    OneMoreMessage(session, k);
    if session.events[k].TypeErrors? {
      GroupingAt(session.events[k].errors, p, false);
    }
    LatestWordGrows(session, k, p, At(start.view, p), At(before.view, p), At(now.view, p));
  }

  lemma FaithfulIfBlank(session: Session, shows: bool, r: Received, start: Editor, now: Editor)
    requires Settled(session, shows, r, start, now)
    ensures Blank(start.view) ==> Faithful(now.diagnostics, now.view)
  {
    if Blank(start.view) {
      forall p ensures FaithfulAt(now.diagnostics, now.view, p) {
        assert IsSettled(session, shows, r.handled, start, p);
      }
    }
  }

  lemma SettledAtStart(session: Session, start: Editor)
    ensures Settled(session, false, Received(0, true), start, start) && Untouched(session, start, start)
    ensures !session.typeErrorsEnabled ==> Settled(session, false, Received(1, true), start, start)
  {
    assert !session.typeErrorsEnabled ==> !session.Decides(0);
  }

  lemma UntouchedByFirst(session: Session, start: Editor, now: Editor)
    requires session.typeErrorsEnabled
    requires forall p :: p !in start.diagnostics && p !in Grouping(session.first, false) ==>
               p !in now.diagnostics && At(now.view, p) == At(start.view, p)
    ensures Untouched(session, start, now)
  {
  }

  lemma SettledByFirst(session: Session, ok: bool, start: Editor, now: Editor)
    requires session.typeErrorsEnabled && now.diagnostics == Grouping(session.first, false)
    requires forall p :: At(now.view, p) == At(start.view, p)
                         || (p in now.diagnostics && At(now.view, p) == now.diagnostics[p])
    requires ok ==> forall p :: p in now.diagnostics ==> At(now.view, p) == now.diagnostics[p]
    ensures Settled(session, true, if ok then Received(1, true) else Received(0, false), start, now)
  {
    if ok {
      forall p | At(start.view, p) == [] || p in now.diagnostics
        ensures session.IsLatestWord(1, p, At(start.view, p), At(now.view, p))
      {
        GroupingAt(session.first, p, false);
        assert session.Decides(0) && At(now.view, p) == session.Says(0, p);
      }
    }
  }

  /** What the clean-up does: a completed one blanks all paths with diagnostics and empties the
      diagnostics, an interrupted one keeps the diagnostics. */
  ghost predicate IsCleanUp(c: CleanUp, before: Editor, now: Editor) {
    match c
    case Completed =>
      && now.diagnostics == map[]
      && forall p :: At(now.view, p) == if p in before.diagnostics then [] else At(before.view, p)
    case CutAtMessage => now == before
    case CutWhileClearing(cleared) =>
      && now.diagnostics == before.diagnostics && cleared <= before.diagnostics.Keys
      && forall p :: At(now.view, p) == if p in cleared then [] else At(before.view, p)
  }

  lemma FaithfulWithoutDiagnostics(view: Diagnostics)
    ensures Faithful(map[], view) <==> Blank(view)
  {
    if Faithful(map[], view) {
      forall p ensures At(view, p) == [] {
        assert FaithfulAt(map[], view, p);
      }
    }
  }

  /** After the clean-up a path is right or stale. */
  lemma SettledIsExact(session: Session, r: Received, c: CleanUp, start: Editor, before: Editor, now: Editor)
    requires Settled(session, Shows(session, r), r, start, before) && IsCleanUp(c, before, now)
    ensures IsExact(session, r, c, start, now)
  {
  }

  // ----- Any number of subscriptions

  /** A session with its outcome and the editor before and after it. */
  datatype Episode = Episode(session: Session, received: Received, cleanUp: CleanUp, before: Editor, after: Editor)

  ghost predicate EpisodeIsExact(e: Episode) {
    IsExact(e.session, e.received, e.cleanUp, e.before, e.after)
  }

  method RunEpisode(handler: SubscriptionHandler, session: Session) returns (e: Episode)
    modifies handler
    ensures e.session == session && e.before == old(handler.Now()) && e.after == handler.Now()
    ensures EpisodeIsExact(e)
    ensures Blank(e.before.view) && e.cleanUp.Completed? ==> Blank(e.after.view)
    ensures Untouched(session, e.before, e.after)
  {
    var before := handler.Now();
    var r, c := handler.Subscribe(session);
    return Episode(session, r, c, before, handler.Now());
  }

  /** What episodes in a row come to. Every episode is exact. From a blank editor the view is faithful
      at the end if no clean-up but the last was interrupted, and blank if none was. */
  ghost predicate IsHistory(start: Editor, episodes: seq<Episode>, end: Editor) {
    var n := |episodes|;
    && (forall k :: 0 <= k < n ==> EpisodeIsExact(episodes[k]))
    && Linked(start, episodes, end)
    && (Blank(start.view) && AllCompleted(episodes, n - 1) ==> Faithful(end.diagnostics, end.view))
    && (Blank(start.view) && AllCompleted(episodes, n) ==> Blank(end.view))
  }

  lemma ExtendHistory(start: Editor, episodes: seq<Episode>, e: Episode)
    requires IsHistory(start, episodes, e.before) && EpisodeIsExact(e)
    requires Blank(e.before.view) && e.cleanUp.Completed? ==> Blank(e.after.view)
    ensures IsHistory(start, episodes + [e], e.after)
  {
    var n, longer := |episodes|, episodes + [e];
    assert longer[..n] == episodes && longer[n] == e;
    assert AllCompleted(longer, n) ==> AllCompleted(episodes, n) by {
      assert forall i :: 0 <= i < n ==> longer[i] == episodes[i];
    }
    ExactWhenBetween(e.session, e.received, e.cleanUp, e.before, e.after);
  }

  /** Reconnections from any state. A path outside the diagnostics that no message ever mentions
      keeps what it shows, through all clean-ups. */
  method Live(handler: SubscriptionHandler, sessions: seq<Session>) returns (episodes: seq<Episode>)
    modifies handler
    ensures |episodes| == |sessions| && forall k :: 0 <= k < |sessions| ==> episodes[k].session == sessions[k]
    ensures IsHistory(old(handler.Now()), episodes, handler.Now())
    ensures NeverTouched(sessions, old(handler.Now()), handler.Now())
  {
    episodes := [];
    for k := 0 to |sessions|
      invariant |episodes| == k && forall i :: 0 <= i < k ==> episodes[i].session == sessions[i]
      invariant IsHistory(old(handler.Now()), episodes, handler.Now())
      invariant NeverTouched(sessions, old(handler.Now()), handler.Now())
    {
      var e := RunEpisode(handler, sessions[k]);
      ExtendHistory(old(handler.Now()), episodes, e);
      NeverTouchedBySession(sessions, k, old(handler.Now()), e.before, e.after);
      episodes := episodes + [e];
    }
  }

  /** Each episode begins where the one before ended. */
  ghost predicate Linked(start: Editor, episodes: seq<Episode>, end: Editor) {
    if episodes == [] then start == end
    else
      var e := episodes[|episodes| - 1];
      e.after == end && Linked(start, episodes[..|episodes| - 1], e.before)
  }

  ghost predicate AllCompleted(episodes: seq<Episode>, n: int) {
    forall i :: 0 <= i < n && i < |episodes| ==> episodes[i].cleanUp.Completed?
  }

  ghost predicate MentionedIn(sessions: seq<Session>, p: Path) {
    exists k :: 0 <= k < |sessions| && sessions[k].MentionsEver(p)
  }

  /** A path outside the diagnostics that no message of any session mentions stays as it was. */
  ghost predicate NeverTouched(sessions: seq<Session>, start: Editor, now: Editor) {
    forall p :: p !in start.diagnostics && !MentionedIn(sessions, p) ==>
      p !in now.diagnostics && At(now.view, p) == At(start.view, p)
  }

  lemma NeverTouchedBySession(sessions: seq<Session>, k: nat, start: Editor, before: Editor, now: Editor)
    requires k < |sessions| && NeverTouched(sessions, start, before) && Untouched(sessions[k], before, now)
    ensures NeverTouched(sessions, start, now)
  {
  }

  /** A run that goes wrong, for any type error: its clean-up is interrupted at the status message,
      the next connection reports no errors, and the error stays in the editor although that
      connection cleaned up completely. */
  method InterruptedCleanUpLeavesStaleError(e: TypeError) returns (handler: SubscriptionHandler)
    ensures handler.diagnostics == map[] && At(handler.view, e.path) == [ToDiagnostic(e, false)]
    ensures !Faithful(handler.diagnostics, handler.view)
  {
    handler := new SubscriptionHandler([Cut(3, false)]);
    var one, none := Session(true, [e], []), Session(true, [], []);
    assert Grouping([e], false).Keys == {e.path};
    GroupingAt([e], e.path, false);
    assert ForPath([e], e.path, false) == [ToDiagnostic(e, false)];
    var r, c := handler.Subscribe(one);
    assert At(handler.view, e.path) == [ToDiagnostic(e, false)];
    ghost var start := handler.Now();
    r, c := handler.Subscribe(none);
    assert !IsRight(none, r, c, 1, start, e.path);
  }
}
