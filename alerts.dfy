/**
 * What one pass of `scrape_cotes` decides, stated declaratively over the
 * ordered observations of one page: which matches alert, in which order,
 * what the accumulated alert text is, and how `alerted_matches` grows.
 * The imperative loop in module Scrapper is proved against these functions.
 */
module Alerts {
  import opened Wrappers
  import PyText

  /** `RETURN_THRESHOLD`, and how the f-string renders it in an alert line. */
  const RETURN_THRESHOLD: real := 98.0
  const THRESHOLD_TEXT: string := "98.0"

  /** The link appended once to a non-empty batch of alerts. */
  const FOOTER: string := "\nVoir sur : https://www.coteur.com/comparateur-de-cotes"

  /** A Python float as `float()` can produce it. */
  datatype Float = Finite(value: real) | Infinity | NegInfinity | NaN

  /** `cote_value > RETURN_THRESHOLD` on a Python float (NaN compares false). */
  predicate Exceeds(f: Float)
  {
    (f.Finite? && f.value > RETURN_THRESHOLD) || f.Infinity?
  }

  /**
   * One `div.events` block of the page: the inner texts of its
   * `div.event-team` elements, and the inner text of its retour span
   * when that span exists.
   */
  datatype Observation = Observation(teams: seq<string>, retour: Option<string>)

  /**
   * The number handling the scraper borrows from Python: `parse` is
   * `float()` (None when it raises ValueError), `render` is `str()` of a float.
   */
  datatype Env = Env(parse: string -> Option<Float>, render: Float -> string)

  /** One alert of a cycle: the match and the value that triggered it. */
  datatype Alert = Alert(name: string, value: Float)

  /** `f"{team1} vs {team2}"` over the stripped team texts. */
  function MatchName(team1: string, team2: string): string
  {
    PyText.Strip(team1) + " vs " + PyText.Strip(team2)
  }

  /** The alert line appended for one match. */
  function AlertLine(name: string, shown: string): (line: string)
    ensures line != [] && line[|line| - 1] == '\n'
  {
    "Alerte : Le match " + name + " dépasse " + THRESHOLD_TEXT + "% avec un retour de " + shown + "%\n"
  }

  /**
   * What the loop body derives from one match block: the match name when
   * there are exactly two teams (otherwise `match_name` is not assigned),
   * and the float read from the normalised retour text (None when the span
   * is missing or `float()` raises ValueError).
   */
  datatype Fact = Fact(pairName: Option<string>, reading: Option<Float>)

  function Extract(o: Observation, env: Env): Fact
  {
    Fact(if |o.teams| == 2 then Some(MatchName(o.teams[0], o.teams[1])) else None,
         match o.retour
         case None => None
         case Some(text) => env.parse(PyText.Normalize(text)))
  }

  /** The facts of a whole page, observation by observation. */
  function Facts(page: seq<Observation>, env: Env): (facts: seq<Fact>)
    ensures |facts| == |page|
  {
    if page == [] then [] else Facts(page[..|page| - 1], env) + [Extract(page[|page| - 1], env)]
  }

  /** Fact `i` of a page is what observation `i` yields. */
  lemma {:induction false} FactsAt(page: seq<Observation>, env: Env, i: nat)
    requires i < |page|
    ensures Facts(page, env)[i] == Extract(page[i], env)
    decreases |page|
  {
    if i < |page| - 1 {
      FactsAt(page[..|page| - 1], env, i);
    }
  }

  /**
   * The value `match_name` holds while observation `i` is processed: set
   * from the teams when there are exactly two of them, otherwise left as
   * it was for the previous observation; None means it was never assigned.
   */
  function NameAt(facts: seq<Fact>, i: nat): Option<string>
    requires i < |facts|
  {
    if facts[i].pairName.Some? then facts[i].pairName
    else if i == 0 then None
    else NameAt(facts, i - 1)
  }

  /** Observation `i` names a match and carries a value above the threshold. */
  predicate Qualifies(facts: seq<Fact>, i: nat)
    requires i < |facts|
  {
    NameAt(facts, i).Some? && facts[i].reading.Some? && Exceeds(facts[i].reading.value)
  }

  /**
   * Observation `i` raises an alert: it qualifies, and its match was neither
   * alerted before the cycle nor named by an earlier qualifying observation
   * of the cycle (FirstHitIsFirst spells this out).
   */
  predicate FirstHit(facts: seq<Fact>, i: nat, alerted: set<string>)
    requires i < |facts|
  {
    Qualifies(facts, i) && NameAt(facts, i).value !in alerted + QualifiedNames(facts, i)
  }

  /** The alerts raised by the first `k` observations, in page order. */
  function Emitted(facts: seq<Fact>, k: nat, alerted: set<string>): seq<Alert>
    requires k <= |facts|
  {
    if k == 0 then []
    else
      Emitted(facts, k - 1, alerted)
      + if FirstHit(facts, k - 1, alerted)
        then [Alert(NameAt(facts, k - 1).value, facts[k - 1].reading.value)]
        else []
  }

  /** The match names of the qualifying observations among the first `k`. */
  function QualifiedNames(facts: seq<Fact>, k: nat): set<string>
    requires k <= |facts|
  {
    if k == 0 then {}
    else
      QualifiedNames(facts, k - 1)
      + if Qualifies(facts, k - 1) then {NameAt(facts, k - 1).value} else {}
  }

  /** The match names of `alerts`. */
  function NameSet(alerts: seq<Alert>): set<string>
  {
    if alerts == [] then {} else NameSet(alerts[..|alerts| - 1]) + {alerts[|alerts| - 1].name}
  }

  predicate DistinctNames(alerts: seq<Alert>)
  {
    forall i, j :: 0 <= i < j < |alerts| ==> alerts[i].name != alerts[j].name
  }

  /** The alert lines of `alerts`, concatenated in order. */
  function Join(alerts: seq<Alert>, render: Float -> string): (text: string)
    ensures text == [] <==> alerts == []
  {
    if alerts == [] then []
    else
      var last := alerts[|alerts| - 1];
      Join(alerts[..|alerts| - 1], render) + AlertLine(last.name, render(last.value))
  }

  /**
   * The outcome of a cycle that ran to the end: the alerts raised, the
   * set of alerted matches afterwards, and the message dispatched, if any.
   */
  datatype Verdict = Verdict(alerts: seq<Alert>, alerted: set<string>, message: Option<string>)

  /**
   * One cycle over `page` starting from the alerted set `alerted`. None
   * when `match_name` is read before it was ever assigned, which raises
   * UnboundLocalError: the cycle ends there and nothing is dispatched.
   */
  function Evaluate(page: seq<Observation>, alerted: set<string>, env: Env): Option<Verdict>
  {
    var facts := Facts(page, env);
    if page != [] && |page[0].teams| != 2 then None
    else
      var e := Emitted(facts, |facts|, alerted);
      Some(Verdict(e, alerted + QualifiedNames(facts, |facts|),
                   if e == [] then None else Some(Join(e, env.render) + FOOTER)))
  }

  // ---------------------------------------------------------------------
  // The loop-carried match name

  /**
   * An observation without exactly two teams is attributed to the match of
   * the last earlier observation that had two.
   */
  lemma {:induction false} NameAtIsLastPair(facts: seq<Fact>, j: nat, i: nat)
    requires j <= i < |facts| && facts[j].pairName.Some?
    requires forall k :: j < k <= i ==> facts[k].pairName.None?
    ensures NameAt(facts, i) == facts[j].pairName
    decreases i
  {
    if i > j {
      NameAtIsLastPair(facts, j, i - 1);
    }
  }

  /** `match_name` is unset exactly while no observation so far had two teams. */
  lemma {:induction false} NameAtUnset(facts: seq<Fact>, i: nat)
    requires i < |facts|
    ensures NameAt(facts, i).None? <==> forall k :: 0 <= k <= i ==> facts[k].pairName.None?
  {
    if i > 0 {
      NameAtUnset(facts, i - 1);
    }
  }

  // ---------------------------------------------------------------------
  // One observation at a time

  /** Every qualifying observation among the first `k` contributes its name. */
  lemma {:induction false} QualifiedNamesContain(facts: seq<Fact>, j: nat, k: nat)
    requires j < k <= |facts| && Qualifies(facts, j)
    ensures NameAt(facts, j).value in QualifiedNames(facts, k)
    decreases k
  {
    if j < k - 1 {
      QualifiedNamesContain(facts, j, k - 1);
    }
  }

  /** Every qualified name comes from a qualifying observation among the first `k`. */
  lemma {:induction false} QualifiedNamesSource(facts: seq<Fact>, k: nat, n: string) returns (j: nat)
    requires k <= |facts| && n in QualifiedNames(facts, k)
    ensures j < k && Qualifies(facts, j) && NameAt(facts, j) == Some(n)
  {
    assert k > 0;
    var here := Qualifies(facts, k - 1) && NameAt(facts, k - 1) == Some(n);
    if here {
      j := k - 1;
    } else {
      assert n in QualifiedNames(facts, k - 1);
      j := QualifiedNamesSource(facts, k - 1, n);
    }
  }

  /**
   * An observation alerts iff it qualifies, its match was not alerted before
   * the cycle, and no earlier qualifying observation carried the same name.
   */
  lemma FirstHitIsFirst(facts: seq<Fact>, i: nat, alerted: set<string>)
    requires i < |facts|
    ensures FirstHit(facts, i, alerted)
            <==> Qualifies(facts, i) && NameAt(facts, i).value !in alerted
                 && forall j :: 0 <= j < i && Qualifies(facts, j) ==> NameAt(facts, j) != NameAt(facts, i)
  {
    if Qualifies(facts, i) && NameAt(facts, i).value in QualifiedNames(facts, i) {
      var j := QualifiedNamesSource(facts, i, NameAt(facts, i).value);
    }
    if Qualifies(facts, i) && NameAt(facts, i).value !in QualifiedNames(facts, i) {
      forall j | 0 <= j < i && Qualifies(facts, j) ensures NameAt(facts, j) != NameAt(facts, i) {
        QualifiedNamesContain(facts, j, i);
      }
    }
  }

  /** A match already in the set is skipped: no alert, the set is unchanged. */
  lemma AlreadyAlertedIsSkipped(facts: seq<Fact>, i: nat, alerted: set<string>)
    requires i < |facts| && NameAt(facts, i).Some?
    requires NameAt(facts, i).value in alerted + QualifiedNames(facts, i)
    ensures Emitted(facts, i + 1, alerted) == Emitted(facts, i, alerted)
    ensures alerted + QualifiedNames(facts, i + 1) == alerted + QualifiedNames(facts, i)
  {
  }

  /** An observation that does not qualify changes neither the alerts nor the set. */
  lemma NotQualifyingChangesNothing(facts: seq<Fact>, i: nat, alerted: set<string>)
    requires i < |facts| && !Qualifies(facts, i)
    ensures Emitted(facts, i + 1, alerted) == Emitted(facts, i, alerted)
    ensures QualifiedNames(facts, i + 1) == QualifiedNames(facts, i)
  {
  }

  /** A match block without a retour span, or whose text `float()` rejects, changes nothing. */
  lemma UnreadableRetourIsIgnored(page: seq<Observation>, i: nat, alerted: set<string>, env: Env)
    requires i < |page|
    requires page[i].retour.None? || env.parse(PyText.Normalize(page[i].retour.value)).None?
    ensures Emitted(Facts(page, env), i + 1, alerted) == Emitted(Facts(page, env), i, alerted)
    ensures QualifiedNames(Facts(page, env), i + 1) == QualifiedNames(Facts(page, env), i)
  {
    FactsAt(page, env, i);
    NotQualifyingChangesNothing(Facts(page, env), i, alerted);
  }

  /**
   * A match block whose value is not strictly above the threshold (at or
   * below it, NaN, or negative infinity) changes nothing.
   */
  lemma NotAboveThresholdIsIgnored(page: seq<Observation>, i: nat, alerted: set<string>, env: Env, value: Float)
    requires i < |page| && page[i].retour.Some?
    requires env.parse(PyText.Normalize(page[i].retour.value)) == Some(value)
    requires value.Finite? ==> value.value <= RETURN_THRESHOLD
    requires !value.Infinity?
    ensures Emitted(Facts(page, env), i + 1, alerted) == Emitted(Facts(page, env), i, alerted)
    ensures QualifiedNames(Facts(page, env), i + 1) == QualifiedNames(Facts(page, env), i)
  {
    FactsAt(page, env, i);
    NotQualifyingChangesNothing(Facts(page, env), i, alerted);
  }

  /** A match not yet in the set whose value exceeds the threshold raises exactly one alert and joins the set. */
  lemma NewMatchAlerts(facts: seq<Fact>, i: nat, alerted: set<string>)
    requires i < |facts| && Qualifies(facts, i)
    requires NameAt(facts, i).value !in alerted + QualifiedNames(facts, i)
    ensures Emitted(facts, i + 1, alerted)
            == Emitted(facts, i, alerted) + [Alert(NameAt(facts, i).value, facts[i].reading.value)]
    ensures alerted + QualifiedNames(facts, i + 1)
            == alerted + QualifiedNames(facts, i) + {NameAt(facts, i).value}
  {
  }

  lemma {:induction false} NameSetHas(alerts: seq<Alert>, i: nat)
    requires i < |alerts|
    ensures alerts[i].name in NameSet(alerts)
  {
    if i < |alerts| - 1 {
      NameSetHas(alerts[..|alerts| - 1], i);
    }
  }

  lemma JoinAppend(alerts: seq<Alert>, a: Alert, render: Float -> string)
    ensures Join(alerts + [a], render) == Join(alerts, render) + AlertLine(a.name, render(a.value))
  {
    assert (alerts + [a])[..|alerts|] == alerts;
  }

  // ---------------------------------------------------------------------
  // The loop's bookkeeping

  /**
   * What the loop carries from one observation to the next: the set of
   * alerted matches, the alerts raised, and the alert lines written so far.
   */
  datatype Progress = Progress(alerted: set<string>, alerts: seq<Alert>, message: string)

  /**
   * The first `k` observations processed in order, as the loop does it:
   * a qualifying observation whose match is not yet in the set adds the
   * match to the set, raises an alert and writes its line; every other
   * observation changes nothing.
   */
  function Scan(facts: seq<Fact>, k: nat, start: set<string>, render: Float -> string): Progress
    requires k <= |facts|
  {
    if k == 0 then Progress(start, [], [])
    else
      var p := Scan(facts, k - 1, start, render);
      if !Qualifies(facts, k - 1) || NameAt(facts, k - 1).value in p.alerted then p
      else
        var name := NameAt(facts, k - 1).value;
        var value := facts[k - 1].reading.value;
        Progress(p.alerted + {name}, p.alerts + [Alert(name, value)], p.message + AlertLine(name, render(value)))
  }

  /**
   * One step of the loop's bookkeeping, once the set it carries is known to
   * be the declarative one: it raises an alert exactly at a first hit.
   */
  lemma ScanStep(facts: seq<Fact>, k: nat, start: set<string>, render: Float -> string)
    requires 0 < k <= |facts|
    requires Scan(facts, k - 1, start, render).alerted == start + QualifiedNames(facts, k - 1)
    ensures var p := Scan(facts, k - 1, start, render);
            Scan(facts, k, start, render)
            == if FirstHit(facts, k - 1, start)
               then
                 var n := NameAt(facts, k - 1).value;
                 var v := facts[k - 1].reading.value;
                 Progress(p.alerted + {n}, p.alerts + [Alert(n, v)], p.message + AlertLine(n, render(v)))
               else p
  {
  }

  /** The loop's bookkeeping agrees with the declarative description of a cycle. */
  lemma {:induction false} ScanMatchesSpec(facts: seq<Fact>, k: nat, start: set<string>, render: Float -> string)
    requires k <= |facts|
    ensures Scan(facts, k, start, render)
            == Progress(start + QualifiedNames(facts, k), Emitted(facts, k, start), Join(Emitted(facts, k, start), render))
  {
    if k > 0 {
      ScanMatchesSpec(facts, k - 1, start, render);
      ScanStep(facts, k, start, render);
      var e := Emitted(facts, k - 1, start);
      if FirstHit(facts, k - 1, start) {
        var a := Alert(NameAt(facts, k - 1).value, facts[k - 1].reading.value);
        assert Emitted(facts, k, start) == e + [a];
        JoinAppend(e, a, render);
      } else {
        assert Emitted(facts, k, start) == e;
      }
    }
  }

  // ---------------------------------------------------------------------
  // The whole cycle

  /** Every alert of a cycle is for a match not alerted before, with a value above the threshold. */
  lemma {:induction false} EmittedExceed(facts: seq<Fact>, k: nat, alerted: set<string>)
    requires k <= |facts|
    ensures forall a :: a in Emitted(facts, k, alerted) ==> Exceeds(a.value) && a.name !in alerted
  {
    if k > 0 {
      EmittedExceed(facts, k - 1, alerted);
    }
  }

  /** The matches alerted in a cycle are exactly the qualifying ones that were not already alerted. */
  lemma {:induction false} EmittedNames(facts: seq<Fact>, k: nat, alerted: set<string>)
    requires k <= |facts|
    ensures NameSet(Emitted(facts, k, alerted)) == QualifiedNames(facts, k) - alerted
  {
    if k > 0 {
      EmittedNames(facts, k - 1, alerted);
      var e := Emitted(facts, k - 1, alerted);
      if FirstHit(facts, k - 1, alerted) {
        var a := Alert(NameAt(facts, k - 1).value, facts[k - 1].reading.value);
        assert Emitted(facts, k, alerted) == e + [a];
        assert (e + [a])[..|e|] == e;
      } else {
        assert Emitted(facts, k, alerted) == e;
      }
    }
  }

  /** No match is alerted twice in one cycle, even when it appears twice on the page. */
  lemma {:induction false} EmittedDistinct(facts: seq<Fact>, k: nat, alerted: set<string>)
    requires k <= |facts|
    ensures DistinctNames(Emitted(facts, k, alerted))
  {
    if k > 0 {
      EmittedDistinct(facts, k - 1, alerted);
      var e := Emitted(facts, k - 1, alerted);
      if FirstHit(facts, k - 1, alerted) {
        EmittedNames(facts, k - 1, alerted);
        var a := Alert(NameAt(facts, k - 1).value, facts[k - 1].reading.value);
        assert a.name !in NameSet(e);
        forall i | 0 <= i < |e| ensures e[i].name != a.name {
          NameSetHas(e, i);
        }
        assert Emitted(facts, k, alerted) == e + [a];
      } else {
        assert Emitted(facts, k, alerted) == e;
      }
    }
  }

  /**
   * `idx` lists, in increasing order, the observations among the first `k`
   * whose alerts make up `alerts`: each is a first hit and gives its alert
   * its name and value, and no first hit among the first `k` is missing.
   */
  predicate HitIndices(facts: seq<Fact>, k: nat, alerted: set<string>, alerts: seq<Alert>, idx: seq<nat>)
    requires k <= |facts|
  {
    && |idx| == |alerts|
    && (forall m :: 0 <= m < |idx| ==>
          && idx[m] < k && FirstHit(facts, idx[m], alerted)
          && alerts[m] == Alert(NameAt(facts, idx[m]).value, facts[idx[m]].reading.value))
    && (forall m, n :: 0 <= m < n < |idx| ==> idx[m] < idx[n])
    && (forall j :: 0 <= j < k && FirstHit(facts, j, alerted) ==> j in idx)
  }

  lemma HitIndicesAdd(facts: seq<Fact>, k: nat, alerted: set<string>, alerts: seq<Alert>, idx: seq<nat>)
    requires 0 < k <= |facts| && FirstHit(facts, k - 1, alerted)
    requires HitIndices(facts, k - 1, alerted, alerts, idx)
    ensures HitIndices(facts, k, alerted,
                       alerts + [Alert(NameAt(facts, k - 1).value, facts[k - 1].reading.value)], idx + [k - 1])
  {
    var idx' := idx + [k - 1];
    forall j | 0 <= j < k && FirstHit(facts, j, alerted) ensures j in idx' {
      if j < k - 1 {
        assert j in idx;
      }
    }
  }

  lemma HitIndicesSkip(facts: seq<Fact>, k: nat, alerted: set<string>, alerts: seq<Alert>, idx: seq<nat>)
    requires 0 < k <= |facts| && !FirstHit(facts, k - 1, alerted)
    requires HitIndices(facts, k - 1, alerted, alerts, idx)
    ensures HitIndices(facts, k, alerted, alerts, idx)
  {
  }

  /** The alerts of a cycle are the first hits of the page, one each, in page order. */
  lemma {:induction false} EmittedOrder(facts: seq<Fact>, k: nat, alerted: set<string>) returns (idx: seq<nat>)
    requires k <= |facts|
    ensures HitIndices(facts, k, alerted, Emitted(facts, k, alerted), idx)
  {
    if k == 0 {
      idx := [];
    } else {
      idx := EmittedOrder(facts, k - 1, alerted);
      if FirstHit(facts, k - 1, alerted) {
        HitIndicesAdd(facts, k, alerted, Emitted(facts, k - 1, alerted), idx);
        idx := idx + [k - 1];
      } else {
        HitIndicesSkip(facts, k, alerted, Emitted(facts, k - 1, alerted), idx);
      }
    }
  }

  /**
   * What a cycle guarantees. It fails only when the first observation does
   * not have exactly two teams. Otherwise its alerts name distinct matches
   * that were not alerted before, each with a value above the threshold;
   * the set afterwards is the old one plus those matches, and it contains
   * every match that qualified on the page; a message is dispatched iff
   * some alert was raised, and it is the alert lines followed once by the
   * footer. EvaluateOrder says which alerts these are, and in which order.
   */
  lemma EvaluateSpec(page: seq<Observation>, alerted: set<string>, env: Env)
    ensures Evaluate(page, alerted, env).None? <==> page != [] && |page[0].teams| != 2
    ensures Evaluate(page, alerted, env).Some? ==>
      var v := Evaluate(page, alerted, env).value;
      var facts := Facts(page, env);
      && DistinctNames(v.alerts)
      && (forall a :: a in v.alerts ==> Exceeds(a.value) && a.name !in alerted)
      && NameSet(v.alerts) == QualifiedNames(facts, |facts|) - alerted
      && v.alerted == alerted + NameSet(v.alerts)
      && (forall i :: 0 <= i < |page| && Qualifies(facts, i) ==> NameAt(facts, i).value in v.alerted)
      && (v.message.Some? <==> v.alerts != [])
      && (v.message.Some? ==> v.message.value == Join(v.alerts, env.render) + FOOTER)
  {
    var facts := Facts(page, env);
    if !(page != [] && |page[0].teams| != 2) {
      var v := Evaluate(page, alerted, env).value;
      EmittedExceed(facts, |facts|, alerted);
      EmittedNames(facts, |facts|, alerted);
      EmittedDistinct(facts, |facts|, alerted);
      forall i | 0 <= i < |page| && Qualifies(facts, i)
        ensures NameAt(facts, i).value in alerted + QualifiedNames(facts, |facts|)
      {
        QualifiedNamesContain(facts, i, |facts|);
      }
    }
  }

  /**
   * The alerts of a cycle that ran to the end are the first hits of the
   * page, one per first hit, in page order, each with its block's match
   * name and value.
   */
  lemma EvaluateOrder(page: seq<Observation>, alerted: set<string>, env: Env) returns (idx: seq<nat>)
    requires Evaluate(page, alerted, env).Some?
    ensures HitIndices(Facts(page, env), |page|, alerted, Evaluate(page, alerted, env).value.alerts, idx)
  {
    idx := EmittedOrder(Facts(page, env), |page|, alerted);
  }
}
