/** The category and location lists of the settings screen, and the
    "no location" entry that the location list always ends with. */
module Taxonomy {
  import opened Items

  /** `s.filter(y => y !== x)`: every occurrence of `x` removed, the other
      entries kept in order and with their multiplicity. */
  function Without(s: seq<string>, x: string): (r: seq<string>)
    ensures forall y :: multiset(r)[y] == if y == x then 0 else multiset(s)[y]
  {
    if s == [] then []
    else
      assert s == [s[0]] + s[1..];
      if s[0] == x then Without(s[1..], x) else [s[0]] + Without(s[1..], x)
  }

  /** Removing an entry that is not there gives the list back unchanged. */
  lemma {:induction false} WithoutAbsent(s: seq<string>, x: string)
    requires x !in s
    ensures Without(s, x) == s
  {
    if s != [] {
      WithoutAbsent(s[1..], x);
    }
  }

  /** Removal works entry by entry: filtering a concatenation is filtering
      each part, so the kept entries stay in their order. */
  lemma {:induction false} WithoutAppend(a: seq<string>, b: seq<string>, x: string)
    ensures Without(a + b, x) == Without(a, x) + Without(b, x)
  {
    if a == [] {
      assert a + b == b;
    } else {
      assert (a + b)[0] == a[0];
      assert (a + b)[1..] == a[1..] + b;
      WithoutAppend(a[1..], b, x);
    }
  }

  /** The location list as the app holds it: the user's entries followed by
      the "no location" entry. */
  function Displayed(user: seq<string>): seq<string>
  {
    user + [NoLocation]
  }

  /** The user's entries of a held location list: what the app persists. */
  function UserLocations(locs: seq<string>): seq<string>
  {
    Without(locs, NoLocation)
  }

  /** The persisted list after the location add button: the user entries,
      then the new name, which is the only way a "no location" entry gets in. */
  function AddedLocations(locs: seq<string>, name: string): (r: seq<string>)
    ensures |r| > 0 && r[|r| - 1] == name
    ensures multiset(r)[NoLocation] == if name == NoLocation then 1 else 0
    ensures forall y :: y != NoLocation ==> multiset(r)[y] == multiset(locs)[y] + (if y == name then 1 else 0)
  {
    UserLocations(locs) + [name]
  }

  /** The persisted list after a location's delete button: neither the
      removed entry nor "no location" is left, every other entry is kept. */
  function RemovedLocations(locs: seq<string>, l: string): (r: seq<string>)
    ensures NoLocation !in r && l !in r
    ensures forall y :: y != NoLocation && y != l ==> multiset(r)[y] == multiset(locs)[y]
  {
    var r := Without(Without(locs, l), NoLocation);
    assert multiset(r)[NoLocation] == 0 && multiset(r)[l] == 0;
    r
  }

  /** The held list after adding a location ends with "no location" and
      holds one of it, or two when the new name is itself "no location". */
  lemma AddLocationShape(locs: seq<string>, name: string)
    ensures Displayed(AddedLocations(locs, name))[|Displayed(AddedLocations(locs, name))| - 1] == NoLocation
    ensures multiset(Displayed(AddedLocations(locs, name)))[NoLocation] == if name == NoLocation then 2 else 1
  {
  }

  /** The held list after removing a location holds exactly one "no location"
      entry, at the end. */
  lemma RemoveLocationShape(locs: seq<string>, l: string)
    ensures Displayed(RemovedLocations(locs, l))[|Displayed(RemovedLocations(locs, l))| - 1] == NoLocation
    ensures multiset(Displayed(RemovedLocations(locs, l)))[NoLocation] == 1
  {
    assert multiset(RemovedLocations(locs, l))[NoLocation] == 0;
  }

  /** Reading back a persisted user list through the subscription gives the
      list the app held when it wrote it, and persisting it again gives the
      same user list. */
  lemma SentinelRoundTrip(user: seq<string>)
    requires NoLocation !in user
    ensures UserLocations(Displayed(user)) == user
  {
    var d := Displayed(user);
    assert d[..|user|] == user;
    WithoutAbsent(user, NoLocation);
    WithoutAppend(user, [NoLocation], NoLocation);
    assert Without([NoLocation], NoLocation) == [];
  }
}
