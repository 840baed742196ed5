/**
 * The scraper process: the module-level set `alerted_matches`, one
 * `scrape_cotes` pass over the observations of a page, the webhook
 * dispatch, and the endless driver loop cut to a finite run of pages.
 */
module Scrapper {
  import opened Wrappers
  import opened Alerts

  /** The webhook answers with a status code; 200 and 204 mean delivered. */
  predicate Delivered(status: int)
  {
    status == 200 || status == 204
  }

  /** One webhook call: what was sent, the status code returned, and whether it counts as delivered. */
  datatype Dispatch = Dispatch(message: string, status: int, delivered: bool)

  predicate IsDispatchOf(d: Dispatch, message: string, webhook: string -> int)
  {
    d.message == message && d.status == webhook(message) && d.delivered == Delivered(d.status)
  }

  /** A cycle either raises (UnboundLocalError on `match_name`) or completes, dispatching at most once. */
  datatype Outcome = Crashed | Completed(dispatch: Option<Dispatch>)

  /** `envoyer_alerte_discord`: hands the message to the webhook once and reads back its status. */
  method SendAlert(message: string, webhook: string -> int) returns (d: Dispatch)
    ensures IsDispatchOf(d, message, webhook)
  {
    var status := webhook(message);
    d := Dispatch(message, status, Delivered(status));
  }

  /** The state of the process across cycles and what it sent, after a run of pages. */
  datatype History = History(alerted: set<string>, alerts: seq<Alert>, messages: seq<string>, crashed: bool)

  /**
   * The driver loop over `pages`, one cycle per page, starting from the set
   * `start`. A cycle that raises ends the process: later pages are never seen.
   */
  function Lifetime(pages: seq<seq<Observation>>, start: set<string>, env: Env): History
  {
    if pages == [] then History(start, [], [], false)
    else
      var h := Lifetime(pages[..|pages| - 1], start, env);
      if h.crashed then h
      else
        match Evaluate(pages[|pages| - 1], h.alerted, env)
        case None => h.(crashed := true)
        case Some(v) =>
          History(v.alerted, h.alerts + v.alerts,
                  h.messages + if v.message.Some? then [v.message.value] else [], false)
  }

  lemma {:induction false} NameSetAppend(a: seq<Alert>, b: seq<Alert>)
    ensures NameSet(a + b) == NameSet(a) + NameSet(b)
  {
    if b != [] {
      NameSetAppend(a, b[..|b| - 1]);
      assert (a + b)[..|a + b| - 1] == a + b[..|b| - 1];
    } else {
      assert a + b == a;
    }
  }

  /**
   * Over the whole life of the process each match alerts at most once: the
   * alerts of all cycles name distinct matches, none in the starting set,
   * each above the threshold, and the set only grows, by exactly those names.
   */
  lemma {:induction false} LifetimeAlertsOnce(pages: seq<seq<Observation>>, start: set<string>, env: Env)
    ensures var h := Lifetime(pages, start, env);
      && DistinctNames(h.alerts)
      && (forall a :: a in h.alerts ==> a.name !in start && Exceeds(a.value))
      && h.alerted == start + NameSet(h.alerts)
  {
    if pages != [] {
      var h := Lifetime(pages[..|pages| - 1], start, env);
      LifetimeAlertsOnce(pages[..|pages| - 1], start, env);
      if !h.crashed {
        var page := pages[|pages| - 1];
        EvaluateSpec(page, h.alerted, env);
        if Evaluate(page, h.alerted, env).Some? {
          var v := Evaluate(page, h.alerted, env).value;
          NameSetAppend(h.alerts, v.alerts);
          var all := h.alerts + v.alerts;
          forall i, j | 0 <= i < j < |all| ensures all[i].name != all[j].name {
            if j >= |h.alerts| {
              if i < |h.alerts| {
                NameSetHas(h.alerts, i);
                assert v.alerts[j - |h.alerts|] in v.alerts;
              } else {
                assert all[i] == v.alerts[i - |h.alerts|];
              }
            }
          }
          forall a | a in all ensures a.name !in start && Exceeds(a.value) {
            if a in v.alerts {
              assert a.name !in h.alerted;
            }
          }
        }
      }
    }
  }

  /** Once a cycle has raised, no later page changes the history. */
  lemma {:induction false} CrashIsFinal(pages: seq<seq<Observation>>, k: nat, start: set<string>, env: Env)
    requires k <= |pages| && Lifetime(pages[..k], start, env).crashed
    ensures Lifetime(pages, start, env) == Lifetime(pages[..k], start, env)
    decreases |pages|
  {
    if k < |pages| {
      assert pages[..|pages| - 1][..k] == pages[..k];
      CrashIsFinal(pages[..|pages| - 1], k, start, env);
    } else {
      assert pages[..k] == pages;
    }
  }

  class AlertState {
    /** `alerted_matches`: the matches an alert was already raised for. */
    var alerted: set<string>

    /** The process starts with no match alerted. */
    constructor ()
      ensures alerted == {}
    {
      alerted := {};
    }

    /**
     * The body of `scrape_cotes`'s loop once `match_name` is known: skip a
     * match already alerted, otherwise normalise and parse the retour, and
     * raise and record the match when it exceeds the threshold. `line` is
     * the text added to the batched message (empty when nothing is raised).
     */
    method VisitMatch(o: Observation, name: string, env: Env,
                      ghost facts: seq<Fact>, ghost i: nat, ghost start: set<string>) returns (line: string)
      modifies this
      requires i < |facts| && facts[i] == Extract(o, env) && NameAt(facts, i) == Some(name)
      requires alerted == Scan(facts, i, start, env.render).alerted
      ensures alerted == Scan(facts, i + 1, start, env.render).alerted
      ensures Scan(facts, i + 1, start, env.render).message == Scan(facts, i, start, env.render).message + line
    {
      ghost var p := Scan(facts, i, start, env.render);
      line := "";
      if name in alerted {
        // already alerted: `continue` to the next match
        assert Scan(facts, i + 1, start, env.render) == p;
      } else if o.retour.Some? {
        var coteText := PyText.Normalize(o.retour.value);
        match env.parse(coteText) {
          case Some(coteValue) =>
            if Exceeds(coteValue) {
              line := AlertLine(name, env.render(coteValue));
              alerted := alerted + {name};
            } else {
              assert Scan(facts, i + 1, start, env.render) == p;
            }
          case None =>
            // ValueError from float(): logged, the match is skipped
            assert Scan(facts, i + 1, start, env.render) == p;
        }
      } else {
        assert Scan(facts, i + 1, start, env.render) == p;
      }
    }

    /**
     * The loop of `scrape_cotes` over the page's match blocks: raise and
     * record each new match above the threshold, collecting the alert lines.
     * It raises (`crashed`) exactly when the first block lacks two teams.
     */
    method ScanPage(page: seq<Observation>, env: Env) returns (alertMessage: string, crashed: bool)
      modifies this
      ensures crashed <==> page != [] && |page[0].teams| != 2
      ensures crashed ==> alerted == old(alerted)
      ensures !crashed ==>
        && alerted == Scan(Facts(page, env), |page|, old(alerted), env.render).alerted
        && alertMessage == Scan(Facts(page, env), |page|, old(alerted), env.render).message
    {
      ghost var facts := Facts(page, env);
      ghost var start := alerted;
      alertMessage, crashed := "", false;
      var matchName: Option<string> := None;
      var i := 0;
      while i < |page|
        invariant 0 <= i <= |page|
        invariant i == 0 ==> matchName.None?
        invariant i > 0 ==> |page[0].teams| == 2 && matchName.Some? && matchName == NameAt(facts, i - 1)
        invariant alerted == Scan(facts, i, start, env.render).alerted
        invariant alertMessage == Scan(facts, i, start, env.render).message
      {
        var o := page[i];
        FactsAt(page, env, i);
        if |o.teams| == 2 {
          matchName := Some(MatchName(o.teams[0], o.teams[1]));
        }
        assert matchName == NameAt(facts, i);
        if matchName.None? {
          // reading `match_name` before any assignment raises UnboundLocalError
          return "", true;
        }
        var line := VisitMatch(o, matchName.value, env, facts, i, start);
        alertMessage := alertMessage + line;
        i := i + 1;
      }
    }

    /**
     * `scrape_cotes` once the browser has produced the page's match blocks:
     * scan them, then dispatch the batched alerts once if there are any.
     * The set is updated before the dispatch and whatever the webhook answers.
     */
    method ScrapeCotes(page: seq<Observation>, env: Env, webhook: string -> int) returns (outcome: Outcome)
      modifies this
      ensures match Evaluate(page, old(alerted), env)
        case None => outcome == Crashed && alerted == old(alerted)
        case Some(v) =>
          && alerted == v.alerted
          && outcome.Completed?
          && (outcome.dispatch.Some? <==> v.message.Some?)
          && (v.message.Some? ==> IsDispatchOf(outcome.dispatch.value, v.message.value, webhook))
    {
      EvaluateSpec(page, alerted, env);
      ScanMatchesSpec(Facts(page, env), |page|, alerted, env.render);
      var alertMessage, crashed := ScanPage(page, env);
      if crashed {
        return Crashed;
      }
      if alertMessage != "" {
        alertMessage := alertMessage + FOOTER;
        var d := SendAlert(alertMessage, webhook);
        outcome := Completed(Some(d));
      } else {
        outcome := Completed(None);
      }
    }

    /**
     * The driver loop, one `scrape_cotes` per page; an exception out of a
     * cycle is not caught, so the first cycle that raises ends the run.
     */
    method Monitor(pages: seq<seq<Observation>>, env: Env, webhook: string -> int)
      returns (sent: seq<Dispatch>, crashed: bool)
      modifies this
      ensures var h := Lifetime(pages, old(alerted), env);
        && alerted == h.alerted
        && crashed == h.crashed
        && |sent| == |h.messages|
        && (forall k :: 0 <= k < |sent| ==> IsDispatchOf(sent[k], h.messages[k], webhook))
    {
      ghost var start := alerted;
      sent, crashed := [], false;
      var i := 0;
      while i < |pages| && !crashed
        invariant 0 <= i <= |pages|
        invariant var h := Lifetime(pages[..i], start, env);
          && alerted == h.alerted
          && crashed == h.crashed
          && |sent| == |h.messages|
          && (forall k :: 0 <= k < |sent| ==> IsDispatchOf(sent[k], h.messages[k], webhook))
      {
        assert pages[..i + 1][..i] == pages[..i];
        var outcome := ScrapeCotes(pages[i], env, webhook);
        if outcome.Crashed? {
          crashed := true;
        } else if outcome.dispatch.Some? {
          sent := sent + [outcome.dispatch.value];
        }
        i := i + 1;
      }
      if crashed {
        CrashIsFinal(pages, i, start, env);
      } else {
        assert pages[..i] == pages;
      }
    }
  }
}
