/** The composition root: the only maker of modem actors (`safety/composition-root.ts`). */
module Root {
  import opened Operation
  import opened Actor

  class ModemControlCompositionRoot {
    var actors: map<ModemId, ModemActor>

    /** No two modems share an actor. */
    ghost predicate Valid()
      reads this
    {
      forall m, n :: m in actors && n in actors && actors[m] == actors[n] ==> m == n
    }

    constructor ()
      ensures Valid() && actors == map[]
    {
      actors := map[];
    }

    /** The same modem always gets the same actor, and nobody else does. */
    method ActorFor(m: ModemId) returns (actor: ModemActor)
      requires Valid()
      modifies this
      ensures Valid()
      ensures m in actors && actors[m] == actor
      ensures m in old(actors) ==> actors == old(actors)
      ensures m !in old(actors) ==> fresh(actor) && actor.View() == INITIAL && actors == old(actors)[m := actor]
    {
      if m in actors {
        return actors[m];
      }
      actor := new ModemActor();
      actors := actors[m := actor];
    }
  }
}
