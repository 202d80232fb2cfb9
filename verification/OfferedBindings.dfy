/** Which bindings of an observation stand behind its offers, in terms of the observation and the task alone. */
module OfferedBindings {
  import opened Lexicographic
  import opened Sequences
  import opened ActionSpaceContracts
  import opened ActionSpaces
  import opened ActionSpaceTheorems
  import opened ActionSpaceMeaning

  // ---- which bindings take part ----

  /** The first source with the id. */
  ghost predicate FirstSource(sources: seq<Source>, id: string, k: int) {
    0 <= k < |sources| && sources[k].observation == id && forall j | 0 <= j < k :: sources[j].observation != id
  }

  /** The binding belongs to the observation as it was captured: same world, same surface, same source revision. */
  ghost predicate Fresh(b: Binding, o: Observation) {
    && b.world == o.id && b.fingerprint != ""
    && if o.sources == [] then b.source == o.id
       else exists k :: FirstSource(o.sources, b.source, k)
                        && o.sources[k].surface == b.surface && o.sources[k].revision == b.revision
  }

  /** Low-risk reading or activating without effects, or, outside a read-only task, allowed effects by other actions. */
  ghost predicate Permitted(task: Task, b: Binding) {
    if b.terms.effects == [] then
      && b.risk == LowRisk
      && ((b.action == "read" && b.terms.category == "observation")
          || (b.action == "activate" && b.terms.category == "interaction"))
    else
      && !task.readOnly && b.action != "read"
      && forall e | e in b.terms.effects :: e in task.allowed && e !in task.forbidden
  }

  /** A binding of the observation that may be offered. */
  ghost predicate TakesPart(task: Task, o: Observation, b: Binding) {
    b in o.bindings && Fresh(b, o) && Permitted(task, b) && b.target !in o.conflictSubjects
  }

  lemma {:induction false} MatchesFirstSource(b: Binding, sources: seq<Source>)
    ensures MatchesSource(b, sources) <==>
              exists k :: FirstSource(sources, b.source, k)
                          && sources[k].surface == b.surface && sources[k].revision == b.revision
  {
    if sources == [] {
    } else if sources[0].observation == b.source {
      assert FirstSource(sources, b.source, 0);
    } else {
      var rest := sources[1..];
      MatchesFirstSource(b, rest);
      if k :| FirstSource(rest, b.source, k) && rest[k].surface == b.surface && rest[k].revision == b.revision {
        assert forall j | 1 <= j <= k :: sources[j] == rest[j - 1];
        assert FirstSource(sources, b.source, k + 1);
      }
      if k :| FirstSource(sources, b.source, k) && sources[k].surface == b.surface
              && sources[k].revision == b.revision {
        assert forall j | 0 <= j < k :: rest[j] == sources[j + 1];
        assert FirstSource(rest, b.source, k - 1);
      }
    }
  }

  lemma CurrentIsFresh(b: Binding, o: Observation)
    ensures IsCurrent(b, o) <==> Fresh(b, o)
  {
    MatchesFirstSource(b, o.sources);
  }

  lemma AllowedIsPermitted(task: Task, b: Binding)
    ensures EffectsAllowed(task, b) <==> Permitted(task, b)
  {
    HasMember(b.terms.effects);
  }

  /** Exactly the fresh, permitted and undisputed bindings of the observation are eligible. */
  lemma EligibleTakesPart(task: Task, o: Observation, b: Binding)
    ensures b in EligibleOf(task, o, o.bindings) <==> TakesPart(task, o, b)
  {
    EligibleAre(task, o, o.bindings);
    CurrentIsFresh(b, o);
    AllowedIsPermitted(task, b);
  }

  /** No stale, forbidden or contested binding stands behind an offer. */
  lemma BackerTakesPart(digests: Digests, task: Task, o: Observation, option: ActionOption, b: Binding)
    requires Backs(digests, EligibleOf(task, o, o.bindings), b, option)
    ensures TakesPart(task, o, b)
  {
    EligibleTakesPart(task, o, b);
  }

  // ---- what is offered ----

  /** An option is as risky as the riskiest binding behind it, low below medium below high below irreversible. */
  lemma OptionRiskIs(digests: Digests, task: Task, o: Observation, i: nat)
    requires i < |Built(digests, task, o).options|
    ensures var eligible, option := EligibleOf(task, o, o.bindings), Built(digests, task, o).options[i];
            && (option.risk == IrreversibleRisk <==> BackedAtRisk(digests, eligible, option, IrreversibleRisk))
            && (option.risk == HighRisk <==>
                  && BackedAtRisk(digests, eligible, option, HighRisk)
                  && !BackedAtRisk(digests, eligible, option, IrreversibleRisk))
            && (option.risk == LowRisk <==>
                  && !BackedAtRisk(digests, eligible, option, MediumRisk)
                  && !BackedAtRisk(digests, eligible, option, HighRisk)
                  && !BackedAtRisk(digests, eligible, option, IrreversibleRisk))
  {
    OptionsMean(digests, task, o, i);
    RiskIs(digests, EligibleOf(task, o, o.bindings), Built(digests, task, o).options[i]);
  }

  lemma RiskIs(digests: Digests, eligible: seq<Binding>, option: ActionOption)
    requires forall b | Backs(digests, eligible, b, option) :: RiskRank(b.risk) <= RiskRank(option.risk)
    requires exists b :: Backs(digests, eligible, b, option) && b.risk == option.risk
    ensures BackedAtRisk(digests, eligible, option, option.risk)
    ensures forall risk | BackedAtRisk(digests, eligible, option, risk) :: RiskRank(risk) <= RiskRank(option.risk)
  {
  }

  ghost predicate BackedAtRisk(digests: Digests, eligible: seq<Binding>, option: ActionOption, risk: Risk) {
    exists b :: Backs(digests, eligible, b, option) && b.risk == risk
  }

  /** Some binding that takes part carries the route, and all that do promise the same. */
  ghost predicate CarriedAlike(digests: Digests, task: Task, o: Observation, s: Selector, d: string) {
    && (exists b :: TakesPart(task, o, b) && Carries(b, s, d))
    && forall b, c | TakesPart(task, o, b) && TakesPart(task, o, c) && Carries(b, s, d) && Carries(c, s, d) ::
         b.terms == c.terms && digests.text(b.schema) == digests.text(c.schema)
  }

  lemma CarriedAndAgreed(digests: Digests, task: Task, o: Observation, s: Selector, d: string)
    ensures CarriedAlike(digests, task, o, s, d) <==>
              && Carried(EligibleOf(task, o, o.bindings), s, d)
              && Agreed(digests, EligibleOf(task, o, o.bindings), s, d)
  {
    forall b ensures b in EligibleOf(task, o, o.bindings) <==> TakesPart(task, o, b) {
      EligibleTakesPart(task, o, b);
    }
  }

  /** The rule of offered routes in terms of the observation and the task alone. */
  lemma RouteOfferedPlainly(privacy: Privacy, digests: Digests, task: Task, o: Observation, s: Selector, d: string)
    requires AllConstructed(privacy, o.bindings)
    ensures Offered(Built(digests, task, o), s, d) <==> CarriedAlike(digests, task, o, s, d)
  {
    RouteOffered(privacy, digests, task, o, s, d);
    CarriedAndAgreed(digests, task, o, s, d);
  }
}
