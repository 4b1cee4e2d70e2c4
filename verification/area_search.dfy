/** The search box of the client's parking-area list: an area is shown when
    the search term, lowercased, occurs in its lowercased name, location or
    status label. */
module AreaSearch {
  import opened Wrappers
  import opened Sequences

  /** A parking area as the client receives it; only the fields the search
      reads. The client's type declares the location a string, and the
      server's actions never store a null one, but nothing on the client
      checks that; an area without a location is a case the search does not
      survive, so the location stays optional here. */
  datatype ClientArea = ClientArea(name: string, location: Option<string>, description: Option<string>, isActive: bool)

  /** `toLowerCase` on one character, for ASCII letters. */
  function Lower(c: char): (r: char)
    ensures 'A' <= c <= 'Z' ==> r as int == c as int + 32
    ensures !('A' <= c <= 'Z') ==> r == c
  {
    if 'A' <= c <= 'Z' then (c as int + 32) as char else c
  }

  function LowerStr(s: string): (r: string)
    ensures |r| == |s|
    ensures forall i :: 0 <= i < |s| ==> r[i] == Lower(s[i])
  {
    if s == [] then [] else [Lower(s[0])] + LowerStr(s[1..])
  }

  /** `t` is a prefix of `s`. */
  predicate StartsWith(s: string, t: string) {
    |t| <= |s| && s[..|t|] == t
  }

  /** `s.includes(t)`: some suffix of `s` starts with `t`. */
  predicate Includes(s: string, t: string)
    decreases |s|
  {
    StartsWith(s, t) || (s != [] && Includes(s[1..], t))
  }

  /** `t` occurs in `s` starting at position `i`. */
  predicate OccursAt(s: string, t: string, i: int) {
    0 <= i && i + |t| <= |s| && s[i..i + |t|] == t
  }

  /** `t` occurs somewhere in `s`. */
  ghost predicate Occurs(s: string, t: string) {
    exists i :: OccursAt(s, t, i)
  }

  /** Includes finds `t` exactly when it occurs at some position of `s`. */
  lemma {:induction false} IncludesIsOccurrence(s: string, t: string)
    ensures Includes(s, t) <==> exists i :: OccursAt(s, t, i)
    decreases |s|
  {
    if StartsWith(s, t) {
      assert OccursAt(s, t, 0);
    } else if s == [] {
      assert forall i :: !OccursAt(s, t, i);
    } else {
      IncludesIsOccurrence(s[1..], t);
      if exists i :: OccursAt(s[1..], t, i) {
        var i :| OccursAt(s[1..], t, i);
        assert s[1..][i..i + |t|] == s[i + 1..i + 1 + |t|];
        assert OccursAt(s, t, i + 1);
      }
      if exists i :: OccursAt(s, t, i) {
        var i :| OccursAt(s, t, i);
        if i > 0 {
          assert s[1..][i - 1..i - 1 + |t|] == s[i..i + |t|];
          assert OccursAt(s[1..], t, i - 1);
        }
      }
    }
  }

  /** A string includes whatever one of its suffixes starts with. */
  lemma {:induction false} IncludesSuffix(s: string, k: int, t: string)
    requires 0 <= k <= |s| && StartsWith(s[k..], t)
    ensures Includes(s, t)
    decreases k
  {
    if k > 0 {
      assert s[1..][k - 1..] == s[k..];
      IncludesSuffix(s[1..], k - 1, t);
    }
  }

  /** `areaIsActive`: the status label shown for an area. */
  function AreaIsActive(area: ClientArea): (text: string)
    ensures area.isActive <==> text == "Active"
    ensures !area.isActive <==> text == "Not active"
  {
    if area.isActive then "Active" else "Not active"
  }

  /** Searching the three fields with Includes is finding an occurrence of
      the term in one of them. */
  lemma SearchedFieldsAreOccurrences(area: ClientArea, term: string)
    ensures (|| Includes(LowerStr(area.name), term)
             || (area.location.Some? && Includes(LowerStr(area.location.value), term))
             || Includes(LowerStr(AreaIsActive(area)), term))
        <==>
            (|| Occurs(LowerStr(area.name), term)
             || (area.location.Some? && Occurs(LowerStr(area.location.value), term))
             || Occurs(LowerStr(AreaIsActive(area)), term))
  {
    IncludesIsOccurrence(LowerStr(area.name), term);
    IncludesIsOccurrence(LowerStr(AreaIsActive(area)), term);
    if area.location.Some? {
      IncludesIsOccurrence(LowerStr(area.location.value), term);
    }
  }

  /** The name, the location or the status label contains the term, ignoring
      ASCII case; the description is not searched. */
  function Matches(area: ClientArea, searchTerm: string): (r: bool)
    ensures r <==>
      || Occurs(LowerStr(area.name), LowerStr(searchTerm))
      || (area.location.Some? && Occurs(LowerStr(area.location.value), LowerStr(searchTerm)))
      || Occurs(LowerStr(AreaIsActive(area)), LowerStr(searchTerm))
  {
    SearchedFieldsAreOccurrences(area, LowerStr(searchTerm));
    || Includes(LowerStr(area.name), LowerStr(searchTerm))
    || (area.location.Some? && Includes(LowerStr(area.location.value), LowerStr(searchTerm)))
    || Includes(LowerStr(AreaIsActive(area)), LowerStr(searchTerm))
  }

  /** The filter's callback throws a TypeError for this area: the name does
      not match, so `||` goes on to call `toLowerCase` on a null location. */
  predicate Throws(area: ClientArea, searchTerm: string) {
    !Includes(LowerStr(area.name), LowerStr(searchTerm)) && area.location.None?
  }

  /** The callback on one area, evaluated left to right with `||` stopping at
      the first match; None where it throws. */
  function TestArea(area: ClientArea, searchTerm: string): (r: Option<bool>)
    ensures r.None? <==> Throws(area, searchTerm)
    ensures r.Some? ==> (r.value <==> Matches(area, searchTerm))
  {
    var term := LowerStr(searchTerm);
    if Includes(LowerStr(area.name), term) then Some(true)
    else if area.location.None? then None
    else Some(Includes(LowerStr(area.location.value), term) || Includes(LowerStr(AreaIsActive(area)), term))
  }

  /** `filteredAreas`: the matching areas, every copy, in list order. None when
      the callback throws for some area, which aborts the whole `filter`. */
  function FilterAreas(areas: seq<ClientArea>, searchTerm: string): (r: Option<seq<ClientArea>>)
    ensures r.None? <==> exists i :: 0 <= i < |areas| && Throws(areas[i], searchTerm)
    ensures r.Some? ==> IsSubsequence(r.value, areas)
    ensures r.Some? ==> forall a :: multiset(r.value)[a] == if Matches(a, searchTerm) then multiset(areas)[a] else 0
    ensures r.Some? && (forall a :: a in areas ==> Matches(a, searchTerm)) ==> r.value == areas
  {
    if areas == [] then Some([])
    else
      assert areas == [areas[0]] + areas[1..];
      match TestArea(areas[0], searchTerm)
      case None => None
      case Some(keep) =>
        match FilterAreas(areas[1..], searchTerm)
        case None =>
          var i :| 0 <= i < |areas[1..]| && Throws(areas[1..][i], searchTerm);
          assert Throws(areas[i + 1], searchTerm);
          None
        case Some(rest) =>
          assert forall i :: 0 < i < |areas| ==> areas[i] == areas[1..][i - 1];
          Some(if keep then [areas[0]] + rest else rest)
  }

  /** The two status labels, lowercased. */
  lemma LabelsLowered()
    ensures LowerStr("Active") == "active"
    ensures LowerStr("Not active") == "not active"
  {
    var a := LowerStr("Active");
    assert a[0] == Lower('A');
    assert a == "active";
    var n := LowerStr("Not active");
    assert n[0] == Lower('N');
    assert n == "not active";
  }

  /** An empty search shows every area: every name contains the empty
      term, so no location is read and nothing throws. */
  lemma EmptyTermKeepsAll(areas: seq<ClientArea>)
    ensures FilterAreas(areas, "") == Some(areas)
  {
    forall a | a in areas
      ensures Matches(a, "") && !Throws(a, "")
    {
      assert StartsWith(LowerStr(a.name), "");
    }
  }

  /** The lowercased status label contains "active", and for an inactive
      area also "not". */
  lemma LabelContents(area: ClientArea)
    ensures Includes(LowerStr(AreaIsActive(area)), "active")
    ensures !area.isActive ==> Includes(LowerStr(AreaIsActive(area)), "not")
  {
    LabelsLowered();
    var shown := LowerStr(AreaIsActive(area));
    if area.isActive {
      assert shown[..6] == "active";
    } else {
      assert shown[..3] == "not";
      assert shown[4..][..6] == "active";
      IncludesSuffix(shown, 4, "active");
    }
  }

  /** "active" in any letter case shows every area, since "not active"
      contains it, unless some area without a location throws first. */
  lemma ActiveTermKeepsAll(areas: seq<ClientArea>, searchTerm: string)
    requires LowerStr(searchTerm) == "active"
    ensures FilterAreas(areas, searchTerm).Some? ==> FilterAreas(areas, searchTerm).value == areas
    ensures (forall a :: a in areas ==> a.location.Some?) ==> FilterAreas(areas, searchTerm) == Some(areas)
  {
    forall a | a in areas
      ensures Matches(a, searchTerm)
    {
      LabelContents(a);
    }
  }

  /** "not" in any letter case shows every inactive area. */
  lemma NotTermKeepsInactive(areas: seq<ClientArea>, searchTerm: string)
    requires LowerStr(searchTerm) == "not"
    ensures FilterAreas(areas, searchTerm).Some? ==>
      forall a :: a in areas && !a.isActive ==> a in FilterAreas(areas, searchTerm).value
  {
    forall a | a in areas && !a.isActive
      ensures Matches(a, searchTerm)
    {
      LabelContents(a);
    }
    if FilterAreas(areas, searchTerm).Some? {
      var r := FilterAreas(areas, searchTerm).value;
      forall a | a in areas && !a.isActive
        ensures a in r
      {
        assert multiset(r)[a] == multiset(areas)[a];
      }
    }
  }

  /** One area without a location whose name lacks the term is enough to
      make the whole search fail, whatever the other areas hold. */
  lemma NullLocationFailsSearch(before: seq<ClientArea>, area: ClientArea, after: seq<ClientArea>, searchTerm: string)
    requires area.location.None? && !Includes(LowerStr(area.name), LowerStr(searchTerm))
    ensures FilterAreas(before + [area] + after, searchTerm).None?
  {
    assert (before + [area] + after)[|before|] == area;
  }
}
