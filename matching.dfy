/**
 * How the reconciliation pass decides that a corner's texture-coordinate
 * tuple is already registered for its position: a comparison string with one
 * '1' or '0' per registered component, accepted only when it reads "11" or
 * "111", and the first registered entry that passes.
 */
module Matching {
  import opened Common

  /** A registered `{array, index, occurred}` record of `vertexUVRelation`. */
  datatype Entry = Entry(coords: seq<Coord>, index: nat, occurred: nat)

  /** The flag for component `l`: '1' when `t` has that component and it equals `arr[l]`. */
  function Flag(arr: seq<Coord>, t: seq<Coord>, l: nat): char
    requires l < |arr|
  {
    if l < |t| && arr[l] == t[l] then '1' else '0'
  }

  /** `checkingStr`: one flag per component of the registered tuple `arr`, in order. */
  function CheckString(arr: seq<Coord>, t: seq<Coord>): (s: string)
    ensures |s| == |arr|
    ensures forall l :: 0 <= l < |arr| ==> (s[l] == '1' <==> l < |t| && arr[l] == t[l])
  {
    if |arr| == 0 then ""
    else CheckString(arr[..|arr| - 1], t) + [Flag(arr, t, |arr| - 1)]
  }

  /** The source's test `checkingStr === "11" || checkingStr === "111"`. */
  predicate Matches(arr: seq<Coord>, t: seq<Coord>)
  {
    var s := CheckString(arr, t);
    s == "11" || s == "111"
  }

  /**
   * A registered tuple matches exactly when it has two or three components and
   * the corner's tuple starts with it.
   */
  lemma MatchesIff(arr: seq<Coord>, t: seq<Coord>)
    ensures Matches(arr, t) <==> (|arr| == 2 || |arr| == 3) && |arr| <= |t| && t[..|arr|] == arr
  {
    var s := CheckString(arr, t);
    if (|arr| == 2 || |arr| == 3) && |arr| <= |t| && t[..|arr|] == arr {
      assert forall l :: 0 <= l < |arr| ==> s[l] == '1';
      if |arr| == 2 { assert s == "11"; } else { assert s == "111"; }
    }
    if Matches(arr, t) {
      assert forall l :: 0 <= l < |s| ==> s[l] == '1' by {
        if s == "11" { assert s[0] == '1' && s[1] == '1'; }
        else { assert s[0] == '1' && s[1] == '1' && s[2] == '1'; }
      }
      assert s[|arr| - 1] == '1';
      assert forall l :: 0 <= l < |arr| ==> t[..|arr|][l] == arr[l];
    }
  }

  /** Two tuples of the same length 2 or 3 match exactly when they are equal. */
  lemma MatchesSameLength(arr: seq<Coord>, t: seq<Coord>)
    requires |arr| == |t| && (|t| == 2 || |t| == 3)
    ensures Matches(arr, t) <==> arr == t
  {
    MatchesIff(arr, t);
    assert t[..|arr|] == t;
  }

  /** A registered tuple of any length other than 2 or 3 never matches. */
  lemma NeverMatchesOtherLengths(arr: seq<Coord>, t: seq<Coord>)
    requires |arr| != 2 && |arr| != 3
    ensures !Matches(arr, t)
  {
    MatchesIff(arr, t);
  }

  /** The inner comparison loop: `for (l = 0; l < arr.length; l++) checkingStr += (arr[l] === t[l]) ? 1 : 0`. */
  method CompareTuples(arr: seq<Coord>, t: seq<Coord>) returns (checkingStr: string)
    ensures checkingStr == CheckString(arr, t)
  {
    checkingStr := "";
    for l := 0 to |arr|
      invariant checkingStr == CheckString(arr[..l], t)
    {
      assert arr[..l + 1][..l] == arr[..l];
      if l < |t| && arr[l] == t[l] {
        checkingStr := checkingStr + "1";
      } else {
        checkingStr := checkingStr + "0";
      }
    }
    assert arr[..|arr|] == arr;
  }

  /** The position of the first registered entry whose tuple matches `t`, if any. */
  function FirstMatch(entries: seq<Entry>, t: seq<Coord>): (r: Option<nat>)
    ensures r.Some? ==> r.value < |entries| && Matches(entries[r.value].coords, t)
    ensures r.Some? ==> forall k :: 0 <= k < r.value ==> !Matches(entries[k].coords, t)
    ensures r.None? ==> forall k :: 0 <= k < |entries| ==> !Matches(entries[k].coords, t)
  {
    if |entries| == 0 then None
    else if Matches(entries[0].coords, t) then Some(0)
    else match FirstMatch(entries[1..], t)
      case None => None
      case Some(k) => Some(k + 1)
  }

  /** The loop over the registered entries of one position, which stops at the first match. */
  method FindMatch(entries: seq<Entry>, t: seq<Coord>) returns (found: Option<nat>)
    ensures found == FirstMatch(entries, t)
  {
    found := None;
    var k := 0;
    while k < |entries|
      invariant 0 <= k <= |entries|
      invariant forall k' :: 0 <= k' < k ==> !Matches(entries[k'].coords, t)
      decreases |entries| - k
    {
      var checkingStr := CompareTuples(entries[k].coords, t);
      if checkingStr == "11" || checkingStr == "111" {
        found := Some(k);
        FirstMatchIsFirst(entries, t, k);
        return;
      }
      k := k + 1;
    }
    FirstMatchNone(entries, t);
  }

  lemma FirstMatchIsFirst(entries: seq<Entry>, t: seq<Coord>, k: nat)
    requires k < |entries| && Matches(entries[k].coords, t)
    requires forall k' :: 0 <= k' < k ==> !Matches(entries[k'].coords, t)
    ensures FirstMatch(entries, t) == Some(k)
  {
  }

  lemma FirstMatchNone(entries: seq<Entry>, t: seq<Coord>)
    requires forall k :: 0 <= k < |entries| ==> !Matches(entries[k].coords, t)
    ensures FirstMatch(entries, t) == None
  {
  }
}
