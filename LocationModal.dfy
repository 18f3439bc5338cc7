/** The location picker (client/src/components/location-modal.tsx): a
    case-insensitive substring search over the default locations, and the
    selection that stores the chosen entry.

    `String.prototype.toLowerCase` is Unicode case mapping; here it is the
    parameter `lower`, any function from strings to strings. Only the
    empty-search property asks anything of it: that it maps the empty
    string to itself. */
module LocationModal {
  import opened Seqs
  import opened PrayerUtils
  import opened AppContext

  /** `hay.includes(needle)`: `needle` occurs in `hay` starting at some
      position (the empty string occurs everywhere). */
  predicate Contains(hay: string, needle: string) {
    exists i :: 0 <= i <= |hay| && OccursAt(hay, needle, i)
  }

  /** `needle` occurs in `hay` starting at position `i`. */
  predicate OccursAt(hay: string, needle: string, i: int) {
    0 <= i && i + |needle| <= |hay| && hay[i..i + |needle|] == needle
  }

  /** The filter predicate of the search box. */
  function Matches(lower: string -> string, search: string): Location -> bool {
    (loc: Location) => Contains(lower(loc.name), lower(search))
  }

  /** The default locations the search box lists: those whose lowercased
      name contains the lowercased search, in their original order. */
  function Filtered(lower: string -> string, search: string): (r: seq<Location>)
    ensures |r| <= |DefaultLocations|
    ensures forall i :: 0 <= i < |r| ==> r[i] in DefaultLocations && Contains(lower(r[i].name), lower(search))
  {
    Filter(DefaultLocations, Matches(lower, search))
  }

  /** A location is listed exactly when it is a default location whose
      lowercased name contains the lowercased search text. */
  lemma FilteredMembership(lower: string -> string, search: string, loc: Location)
    ensures loc in Filtered(lower, search) <==>
      loc in DefaultLocations && Contains(lower(loc.name), lower(search))
  {
    var r := Filtered(lower, search);
    if loc in r {
      var i :| 0 <= i < |r| && r[i] == loc;
      assert Matches(lower, search)(r[i]);
    }
    if loc in DefaultLocations && Contains(lower(loc.name), lower(search)) {
      var j :| 0 <= j < |DefaultLocations| && DefaultLocations[j] == loc;
      assert Matches(lower, search)(DefaultLocations[j]);
    }
  }

  /** The list keeps the order of the default locations. */
  lemma FilteredInOrder(lower: string -> string, search: string)
    ensures IsSubsequence(Filtered(lower, search), DefaultLocations)
  {
    FilterIsSubsequence(DefaultLocations, Matches(lower, search));
  }

  /** The empty string occurs in every string. */
  lemma ContainsEmpty(hay: string)
    ensures Contains(hay, "")
  {
    assert OccursAt(hay, "", 0);
  }

  /** With an empty search box every default location is listed. */
  lemma EmptySearchListsAll(lower: string -> string)
    requires lower("") == ""
    ensures Filtered(lower, "") == DefaultLocations
  {
    forall i | 0 <= i < |DefaultLocations| ensures Matches(lower, "")(DefaultLocations[i]) {
      ContainsEmpty(lower(DefaultLocations[i].name));
    }
    FilterAll(DefaultLocations, Matches(lower, ""));
  }

  /** Occurrence is transitive: a substring of a substring is a substring. */
  lemma ContainsTransitive(a: string, b: string, c: string)
    requires Contains(a, b) && Contains(b, c)
    ensures Contains(a, c)
  {
    var i :| 0 <= i <= |a| && OccursAt(a, b, i);
    var j :| 0 <= j <= |b| && OccursAt(b, c, j);
    assert i + |b| <= |a| && a[i..i + |b|] == b;
    assert j + |c| <= |b| && b[j..j + |c|] == c;
    assert a[i + j..i + j + |c|] == c by {
      forall k | 0 <= k < |c| ensures a[i + j..i + j + |c|][k] == c[k] {
        assert a[i + j + k] == a[i..i + |b|][j + k];
      }
    }
    assert OccursAt(a, c, i + j);
  }

  /** Typing more narrows the list: when the longer search text contains
      the shorter one (after lowercasing), its results are an in-order
      selection of the shorter one's. */
  lemma NarrowingSearch(lower: string -> string, s1: string, s2: string)
    requires Contains(lower(s2), lower(s1))
    ensures IsSubsequence(Filtered(lower, s2), Filtered(lower, s1))
    ensures forall loc :: loc in Filtered(lower, s2) ==> loc in Filtered(lower, s1)
  {
    var p, q := Matches(lower, s2), Matches(lower, s1);
    forall loc | p(loc) ensures q(loc) {
      ContainsTransitive(lower(loc.name), lower(s2), lower(s1));
    }
    FilterMonotone(DefaultLocations, p, q);
    FilterSubset(DefaultLocations, p, q);
  }

  /** handleSelect: the chosen entry goes to setLocation as it is. */
  method HandleSelect(store: AppStore, loc: Location)
    modifies store
    ensures store.state == WithLocation(old(store.state), loc)
    ensures store.state.location == loc
    ensures old(store.Valid()) ==> store.Valid()
  {
    store.SetLocation(loc);
  }
}
