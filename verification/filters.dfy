/** Per-category visibility flags (types.ts:11, App.tsx:17-27). */
module Filters {
  import opened Types

  /** `Record<EntityType, boolean>`: one flag per category. */
  datatype FilterState = FilterState(person: bool, organization: bool, location: bool, date: bool, event: bool)
  {
    /** `filters[t]` */
    function Shows(t: EntityType): bool
    {
      match t
      case Person => person
      case Organization => organization
      case Location => location
      case Date => date
      case Event => event
    }

    /** `{ ...prev, [t]: !prev[t] }` (App.tsx:26): flips exactly the flag of `t`. */
    function Toggle(t: EntityType): (r: FilterState)
      ensures r.Shows(t) == !Shows(t)
      ensures forall u :: u != t ==> r.Shows(u) == Shows(u)
    {
      match t
      case Person => this.(person := !person)
      case Organization => this.(organization := !organization)
      case Location => this.(location := !location)
      case Date => this.(date := !date)
      case Event => this.(event := !event)
    }
  }

  /** The initial state (App.tsx:17-23): every category visible. */
  function AllVisible(): (f: FilterState)
    ensures forall t :: f.Shows(t)
  {
    FilterState(true, true, true, true, true)
  }

  /** Two filter states that agree on every category are the same state. */
  lemma FilterStateExtensional(f: FilterState, g: FilterState)
    requires forall t :: f.Shows(t) == g.Shows(t)
    ensures f == g
  {
    assert f.Shows(Person) == g.Shows(Person) && f.Shows(Organization) == g.Shows(Organization);
    assert f.Shows(Location) == g.Shows(Location) && f.Shows(Date) == g.Shows(Date);
    assert f.Shows(Event) == g.Shows(Event);
  }

  /** Toggling the same category twice restores the original state. */
  lemma ToggleTwice(f: FilterState, t: EntityType)
    ensures f.Toggle(t).Toggle(t) == f
  {
    FilterStateExtensional(f.Toggle(t).Toggle(t), f);
  }
}
