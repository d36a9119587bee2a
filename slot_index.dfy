/** The time-slot index built when the page loads (kiosk/js/kiosk.js:121-135): each schedule
    row's id ends in `_<week-minute>`; the tokens after the last underscore that are not empty
    are read as numbers and sorted ascending. */
module SlotIndex {
  import opened Digits
  import opened Search

  /** `id.split('_').pop()`: the text after the last underscore, or all of `id` when it has
      none. */
  function LastToken(id: string): (r: string)
    ensures |r| <= |id| && r == id[|id| - |r|..]
    ensures forall j :: 0 <= j < |r| ==> r[j] != '_'
    ensures |r| < |id| ==> id[|id| - |r| - 1] == '_'
  {
    if id == [] || id[|id| - 1] == '_' then ""
    else LastToken(id[..|id| - 1]) + [id[|id| - 1]]
  }

  /** The row's trailing token is empty or a string of decimal digits. */
  predicate DigitToken(id: string) {
    IsDigits(LastToken(id))
  }

  /** Every row's trailing token is empty or a string of decimal digits. */
  predicate DigitTokens(ids: seq<string>) {
    forall k {:trigger DigitToken(ids[k])} :: 0 <= k < |ids| ==> DigitToken(ids[k])
  }

  /** What one row contributes: nothing for an empty token, else the token's number. */
  function RowSlot(id: string): (r: seq<int>)
    requires DigitToken(id)
    ensures |r| <= 1
    ensures r == [] <==> LastToken(id) == ""
  {
    var token := LastToken(id);
    if token == "" then [] else [DigitsValue(token)]
  }

  /** The slots the loading loop pushes, in row order. */
  function SlotValues(ids: seq<string>): seq<int>
    requires DigitTokens(ids)
  {
    if ids == [] then [] else SlotValues(ids[..|ids| - 1]) + RowSlot(ids[|ids| - 1])
  }

  /** The loop of `cos_loaded` that pushes the number of each row's non-empty trailing
      token, in row order. */
  method CollectSlots(ids: seq<string>) returns (slots: seq<int>)
    requires DigitTokens(ids)
    ensures slots == SlotValues(ids)
  {
    slots := [];
    for i := 0 to |ids|
      invariant DigitTokens(ids[..i])
      invariant slots == SlotValues(ids[..i])
    {
      assert DigitToken(ids[i]);
      var token := LastToken(ids[i]);
      if token != "" {
        slots := slots + [DigitsValue(token)];
      }
      assert ids[..i + 1][..i] == ids[..i];
    }
    assert ids[..|ids|] == ids;
  }

  /** Row `id` has a non-empty trailing token that reads as `v`. */
  predicate Contributes(id: string, v: int) {
    DigitToken(id) && LastToken(id) != "" && DigitsValue(LastToken(id)) == v
  }

  /** Every prefix of rows with digit tokens has digit tokens. */
  lemma DigitTokensPrefix(ids: seq<string>, n: nat)
    requires DigitTokens(ids) && n <= |ids|
    ensures DigitTokens(ids[..n])
  {
    forall k | 0 <= k < n ensures DigitToken(ids[..n][k]) {
      assert ids[..n][k] == ids[k];
    }
  }

  /** Every collected slot comes from some row whose trailing token reads as it. */
  lemma {:induction false} SlotValueSource(ids: seq<string>, v: int) returns (k: nat)
    requires DigitTokens(ids)
    requires v in SlotValues(ids)
    ensures k < |ids| && Contributes(ids[k], v)
    decreases |ids|
  {
    var init, last := ids[..|ids| - 1], ids[|ids| - 1];
    assert DigitToken(last);
    DigitTokensPrefix(ids, |ids| - 1);
    assert SlotValues(ids) == SlotValues(init) + RowSlot(last);
    if v in RowSlot(last) {
      k := |ids| - 1;
    } else {
      k := SlotValueSource(init, v);
      assert init[k] == ids[k];
    }
  }

  /** Every row with a non-empty trailing token has its number collected. */
  lemma {:induction false} SlotValueCollected(ids: seq<string>, k: nat, v: int)
    requires DigitTokens(ids)
    requires k < |ids| && Contributes(ids[k], v)
    ensures v in SlotValues(ids)
    decreases |ids|
  {
    var init := ids[..|ids| - 1];
    DigitTokensPrefix(ids, |ids| - 1);
    assert SlotValues(ids) == SlotValues(init) + RowSlot(ids[|ids| - 1]);
    if k == |ids| - 1 {
      assert RowSlot(ids[k]) == [v];
    } else {
      assert init[k] == ids[k];
      SlotValueCollected(init, k, v);
    }
  }

  /** A slot value is collected exactly when some row has a non-empty trailing token that
      reads as that value. */
  lemma SlotValuesMembers(ids: seq<string>, v: int)
    requires DigitTokens(ids)
    ensures v in SlotValues(ids) <==> exists k :: 0 <= k < |ids| && Contributes(ids[k], v)
  {
    if v in SlotValues(ids) {
      var k := SlotValueSource(ids, v);
    }
    if exists k :: 0 <= k < |ids| && Contributes(ids[k], v) {
      var k :| 0 <= k < |ids| && Contributes(ids[k], v);
      SlotValueCollected(ids, k, v);
    }
  }

  /** Every row contributes at most one slot, and every slot is non-negative. */
  lemma {:induction false} SlotValuesBounds(ids: seq<string>)
    requires DigitTokens(ids)
    ensures |SlotValues(ids)| <= |ids|
    ensures forall j :: 0 <= j < |SlotValues(ids)| ==> SlotValues(ids)[j] >= 0
  {
    if ids != [] {
      SlotValuesBounds(ids[..|ids| - 1]);
    }
  }

  /** An element no larger than the first of an ascending sequence can go in front of it. */
  lemma PrependSmallest(x: int, s: seq<int>)
    requires Sorted(s) && (s == [] || x <= s[0])
    ensures Sorted([x] + s)
  {
    forall j | 0 <= j < |s| ensures x <= s[j] {
      assert s[0] <= s[j];
    }
  }

  /** The first element of an ascending sequence can go back in front of the rest once
      something no smaller than it has been inserted there. */
  lemma PrependHead(s: seq<int>, x: int, tail: seq<int>)
    requires Sorted(s) && s != [] && s[0] < x && Sorted(tail)
    requires multiset(tail) == multiset(s[1..]) + multiset{x}
    ensures Sorted([s[0]] + tail)
  {
    forall j | 0 <= j < |tail| ensures s[0] <= tail[j] {
      assert tail[j] in multiset(tail);
      if tail[j] != x {
        var i :| 0 <= i < |s[1..]| && s[1..][i] == tail[j];
        assert s[0] <= s[i + 1];
      }
    }
  }

  /** Inserts `x` into an ascending sequence before the first larger-or-equal element. */
  function Insert(x: int, s: seq<int>): (r: seq<int>)
    requires Sorted(s)
    ensures Sorted(r)
    ensures multiset(r) == multiset(s) + multiset{x}
    ensures |r| == |s| + 1
  {
    if s == [] || x <= s[0] then
      PrependSmallest(x, s);
      [x] + s
    else
      var tail := Insert(x, s[1..]);
      PrependHead(s, x, tail);
      assert s == [s[0]] + s[1..];
      [s[0]] + tail
  }

  /** `sort((a, b) => a - b)`: the numbers in ascending order, with their repetitions. */
  function SortAscending(s: seq<int>): (r: seq<int>)
    ensures Sorted(r)
    ensures multiset(r) == multiset(s)
    ensures |r| == |s|
  {
    if s == [] then []
    else
      assert s == [s[0]] + s[1..];
      Insert(s[0], SortAscending(s[1..]))
  }

  /** Two ascending sequences with the same elements start with the same element. */
  lemma SortedSameHead(r: seq<int>, u: seq<int>)
    requires Sorted(r) && Sorted(u) && multiset(r) == multiset(u) && r != []
    ensures |u| == |r| && r[0] == u[0]
  {
    assert |multiset(r)| == |r| && |multiset(u)| == |u|;
    assert r[0] in multiset(u) && u[0] in multiset(r);
    var i :| 0 <= i < |u| && u[i] == r[0];
    var j :| 0 <= j < |r| && r[j] == u[0];
    assert u[0] <= u[i] && r[0] <= r[j];
  }

  /** Taking the same first element off two sequences with the same elements leaves the same
      elements. */
  lemma SameTailElements(r: seq<int>, u: seq<int>)
    requires r != [] && u != [] && r[0] == u[0] && multiset(r) == multiset(u)
    ensures multiset(r[1..]) == multiset(u[1..])
  {
    assert r == [r[0]] + r[1..] && u == [u[0]] + u[1..];
    calc {
      multiset(r[1..]);
      multiset(r) - multiset{r[0]};
      multiset(u) - multiset{u[0]};
      multiset(u[1..]);
    }
  }

  /** An ascending sequence is determined by its elements and their repetitions: sorting is
      the only rearrangement the loaded slots can come out as. */
  lemma {:induction false} SortedPermutationUnique(r: seq<int>, u: seq<int>)
    requires Sorted(r) && Sorted(u) && multiset(r) == multiset(u)
    ensures r == u
    decreases |r|
  {
    if r != [] {
      SortedSameHead(r, u);
      SameTailElements(r, u);
      SortedPermutationUnique(r[1..], u[1..]);
      assert r == [r[0]] + r[1..] && u == [u[0]] + u[1..];
    } else {
      assert |multiset(u)| == |u|;
    }
  }
}
