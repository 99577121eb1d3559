/**
 * The rules engine's state: a lookup table of resolved abilities and the
 * storyline, the queue of triggered events waiting to resolve.
 */
module RulesEngines {

  class RulesEngine<Ability, Event(==)> {
    var abilityLookup: map<string, Ability>
    var storyline: seq<Event>

    /** A new engine knows no abilities and has nothing queued. */
    constructor ()
      ensures abilityLookup == map[] && storyline == []
    {
      abilityLookup := map[];
      storyline := [];
    }

    /**
     * Queue `event` at the tail of the storyline. Earlier events keep their
     * places, and an event already queued is queued again.
     */
    method InsertTriggeredEvent(event: Event)
      modifies this
      ensures storyline == old(storyline) + [event]
      ensures |storyline| == |old(storyline)| + 1 && storyline[..|old(storyline)|] == old(storyline)
      ensures multiset(storyline) == multiset(old(storyline)) + multiset{event}
      ensures abilityLookup == old(abilityLookup)
    {
      storyline := storyline + [event];
    }
  }
}
