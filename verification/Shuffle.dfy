/**
 The keypad presentation shuffle: a Fisher-Yates pass over the input keys of all
 rows, whose results are dealt back to the input slots in reading order. The
 random source is the sequence of swap choices it produces.
 */
module Shuffle {
  import opened Common

  function Flatten<T>(rows: seq<seq<T>>): seq<T> {
    if rows == [] then [] else Flatten(rows[..|rows| - 1]) + rows[|rows| - 1]
  }

  /** The input items of `s`, in order. */
  function Inputs<T>(s: seq<T>, isInput: T -> bool): seq<T> {
    if s == [] then []
    else
      var last := s[|s| - 1];
      Inputs(s[..|s| - 1], isInput) + if isInput(last) then [last] else []
  }

  function Swapped<T>(a: seq<T>, i: nat, j: nat): (r: seq<T>)
    requires i < |a| && j < |a|
    ensures |r| == |a|
  {
    a[i := a[j]][j := a[i]]
  }

  lemma SwapKeepsItems<T>(a: seq<T>, i: nat, j: nat)
    requires i < |a| && j < |a|
    ensures multiset(Swapped(a, i, j)) == multiset(a)
    ensures Swapped(a, i, j)[i] == a[j] && Swapped(a, i, j)[j] == a[i]
    ensures forall k :: 0 <= k < |a| && k != i && k != j ==> Swapped(a, i, j)[k] == a[k]
  {
  }

  /** The choices a pass over `n` items may draw: for the item at `index`, one of `0..=index`. */
  predicate ValidChoices(choices: seq<nat>, n: nat) {
    && |choices| == (if n == 0 then 0 else n - 1)
    && forall k :: 0 <= k < |choices| ==> choices[k] <= n - 1 - k
  }

  /** Settles the last position, then shuffles what comes before it. */
  function Shuffled<T>(a: seq<T>, choices: seq<nat>): (r: seq<T>)
    requires ValidChoices(choices, |a|)
    ensures |r| == |a|
    decreases |a|
  {
    if |a| <= 1 then a
    else
      var n := |a| - 1;
      var s := Swapped(a, n, choices[0]);
      Shuffled(s[..n], choices[1..]) + [s[n]]
  }

  lemma ShuffledUnfolds<T>(a: seq<T>, choices: seq<nat>)
    requires |a| > 1 && ValidChoices(choices, |a|)
    ensures var n := |a| - 1; var s := Swapped(a, n, choices[0]);
            ValidChoices(choices[1..], n) && Shuffled(a, choices) == Shuffled(s[..n], choices[1..]) + [s[n]]
  {
  }

  /** Nothing is lost or doubled. */
  lemma {:induction false} ShuffledKeepsItems<T>(a: seq<T>, choices: seq<nat>)
    requires ValidChoices(choices, |a|)
    ensures multiset(Shuffled(a, choices)) == multiset(a)
    decreases |a|
  {
    if |a| > 1 {
      ShuffledUnfolds(a, choices);
      var n := |a| - 1;
      var s := Swapped(a, n, choices[0]);
      SwapKeepsItems(a, n, choices[0]);
      ShuffledKeepsItems(s[..n], choices[1..]);
      hide Shuffled, Swapped;
      assert s == s[..n] + [s[n]];
    }
  }

  /** The items dealt to the input slots of `s` in order; the other slots keep what they hold. */
  function Dealt<T>(s: seq<T>, isInput: T -> bool, items: seq<T>): (r: seq<T>)
    requires |items| >= |Inputs(s, isInput)|
    ensures |r| == |s|
  {
    if s == [] then []
    else
      var n := |s| - 1;
      Dealt(s[..n], isInput, items) + [if isInput(s[n]) then items[|Inputs(s[..n], isInput)|] else s[n]]
  }

  /** Rows of the same lengths with these items in them. */
  predicate SameShape<T>(rows: seq<seq<T>>, other: seq<seq<T>>) {
    |rows| == |other| && forall i :: 0 <= i < |rows| ==> |rows[i]| == |other[i]|
  }

  // ---------------------------------------------------------------------
  // The algorithm

  /** The settled part of an array whose first `count` items are still to be shuffled. */
  function Unsettled<T>(a: seq<T>, choices: seq<nat>, count: nat): seq<T>
    requires 1 <= count <= |a| && ValidChoices(choices, |a|)
  {
    ChoicesLeft(choices, |a|, count);
    Shuffled(a[..count], choices[|a| - count..]) + a[count..]
  }

  lemma ChoicesLeft(choices: seq<nat>, n: nat, count: nat)
    requires 1 <= count <= n && ValidChoices(choices, n)
    ensures ValidChoices(choices[n - count..], count)
  {
  }

  /** One turn of the loop settles position `index`. */
  lemma SettleOne<T>(a: seq<T>, choices: seq<nat>, index: nat)
    requires 1 <= index < |a| && ValidChoices(choices, |a|)
    ensures var j := choices[|a| - 1 - index];
            j <= index && Unsettled(a, choices, index + 1) == Unsettled(Swapped(a, index, j), choices, index)
  {
    var k := |a| - 1 - index;
    var j := choices[k];
    var prefix, left := a[..index + 1], choices[k..];
    ChoicesLeft(choices, |a|, index + 1);
    ShuffledUnfolds(prefix, left);
    assert left[1..] == choices[|a| - index..];
    hide Shuffled, ValidChoices;
    var s, t := Swapped(prefix, index, j), Swapped(a, index, j);
    SwappedPrefix(a, index, j);
    Regroup(Shuffled(s[..index], left[1..]), [s[index]], a[index + 1..]);
  }

  /** Swapping within a prefix is swapping within the whole. */
  lemma SwappedPrefix<T>(a: seq<T>, index: nat, j: nat)
    requires j <= index < |a|
    ensures var s, t := Swapped(a[..index + 1], index, j), Swapped(a, index, j);
            s[..index] == t[..index] && [s[index]] + a[index + 1..] == t[index..]
  {
  }

  lemma Regroup<T>(a: seq<T>, b: seq<T>, c: seq<T>)
    ensures (a + b) + c == a + (b + c)
  {
  }

  lemma UnsettledEnds<T>(a: seq<T>, choices: seq<nat>)
    requires |a| >= 1 && ValidChoices(choices, |a|)
    ensures Unsettled(a, choices, |a|) == Shuffled(a, choices) && Unsettled(a, choices, 1) == a
  {
    assert a[..|a|] == a && choices[0..] == choices && a[|a|..] == [];
    assert a[..1] + a[1..] == a;
  }

  method SwapAt<T>(a: array<T>, i: nat, j: nat)
    requires i < a.Length && j < a.Length
    modifies a
    ensures a[..] == Swapped(old(a[..]), i, j)
  {
    a[i], a[j] := a[j], a[i];
  }

  method ShuffleInPlace<T>(a: array<T>, choices: seq<nat>)
    requires a.Length > 1 && ValidChoices(choices, a.Length)
    modifies a
    ensures a[..] == Shuffled(old(a[..]), choices)
  {
    UnsettledEnds(a[..], choices);
    assert |choices| == a.Length - 1;
    hide Shuffled, Unsettled, ValidChoices;
    for index := a.Length downto 1
      invariant Unsettled(a[..], choices, index) == Shuffled(old(a[..]), choices)
    {
      var swapIndex := choices[a.Length - 1 - index];
      ghost var before := a[..];
      SettleOne(before, choices, index);
      SwapAt(a, index, swapIndex);
    }
    UnsettledEnds(a[..], choices);
  }

  /** The items of a row placed so far, after the rows already dealt. */
  predicate DealtSoFar<T(==)>(placed: seq<T>, s: seq<T>, isInput: T -> bool, items: seq<T>, inputIndex: nat) {
    |Inputs(s, isInput)| == inputIndex <= |items| && placed == Dealt(s, isInput, items)
  }

  lemma DealOne<T>(placed: seq<T>, s: seq<T>, item: T, isInput: T -> bool, items: seq<T>, inputIndex: nat)
    requires DealtSoFar(placed, s, isInput, items, inputIndex)
    requires isInput(item) ==> inputIndex < |items|
    ensures DealtSoFar(placed + [if isInput(item) then items[inputIndex] else item], s + [item], isInput, items,
                       if isInput(item) then inputIndex + 1 else inputIndex)
  {
    assert (s + [item])[..|s|] == s;
  }

  /** While the next slot of a row is an input slot, an item is left for it. */
  lemma ItemLeft<T>(rows: seq<seq<T>>, i: nat, j: nat, isInput: T -> bool)
    requires i < |rows| && j < |rows[i]| && isInput(rows[i][j])
    ensures |Inputs(Flatten(rows[..i]) + rows[i][..j], isInput)| < |Inputs(Flatten(rows), isInput)|
  {
    var part := Flatten(rows[..i]) + rows[i][..j];
    var longer := part + [rows[i][j]];
    assert longer[..|part|] == part;
    InputsOfPart(rows, i, isInput);
    var row := Flatten(rows[..i]) + rows[i];
    assert row[..|longer|] == longer;
    InputsOfPrefix(row, |longer|, isInput);
  }

  method PresentationRow<T>(rows: seq<seq<T>>, i: nat, isInput: T -> bool, items: seq<T>, firstIndex: nat,
                            placed: seq<T>)
    returns (row: seq<T>, inputIndex: nat)
    requires i < |rows| && |items| == |Inputs(Flatten(rows), isInput)|
    requires DealtSoFar(placed, Flatten(rows[..i]), isInput, items, firstIndex)
    ensures |row| == |rows[i]|
    ensures DealtSoFar(placed + row, Flatten(rows[..i + 1]), isInput, items, inputIndex)
  {
    ghost var before := Flatten(rows[..i]);
    assert Flatten(rows[..i + 1]) == before + rows[i] by {
      assert rows[..i + 1][..i] == rows[..i];
    }
    row, inputIndex := [], firstIndex;
    assert before + rows[i][..0] == before && placed + row == placed;
    hide DealtSoFar, Flatten, Inputs;
    for j := 0 to |rows[i]|
      invariant |row| == j
      invariant DealtSoFar(placed + row, before + rows[i][..j], isInput, items, inputIndex)
    {
      var item := rows[i][j];
      InputIndexIs(placed + row, before + rows[i][..j], isInput, items, inputIndex);
      if isInput(item) {
        ItemLeft(rows, i, j, isInput);
      }
      DealOne(placed + row, before + rows[i][..j], item, isInput, items, inputIndex);
      assert (before + rows[i][..j]) + [item] == before + rows[i][..j + 1];
      ghost var was := row;
      if isInput(item) {
        row := row + [items[inputIndex]];
        inputIndex := inputIndex + 1;
      } else {
        row := row + [item];
      }
      assert placed + row == (placed + was) + [row[j]];
    }
    assert rows[i][..|rows[i]|] == rows[i];
  }

  lemma InputIndexIs<T>(placed: seq<T>, s: seq<T>, isInput: T -> bool, items: seq<T>, inputIndex: nat)
    requires DealtSoFar(placed, s, isInput, items, inputIndex)
    ensures inputIndex == |Inputs(s, isInput)|
  {
  }

  /** Rebuilds the rows, dealing the items to the input slots. */
  method DealRows<T>(rows: seq<seq<T>>, isInput: T -> bool, items: seq<T>) returns (r: seq<seq<T>>)
    requires |items| == |Inputs(Flatten(rows), isInput)|
    ensures SameShape(r, rows) && Flatten(r) == Dealt(Flatten(rows), isInput, items)
  {
    r := [];
    var inputIndex := 0;
    assert rows[..0] == [] && rows[..|rows|] == rows;
    for i := 0 to |rows|
      invariant |r| == i && forall k :: 0 <= k < i ==> |r[k]| == |rows[k]|
      invariant DealtSoFar(Flatten(r), Flatten(rows[..i]), isInput, items, inputIndex)
    {
      hide DealtSoFar, Inputs;
      var row: seq<T>;
      ghost var placed := Flatten(r);
      row, inputIndex := PresentationRow(rows, i, isInput, items, inputIndex, Flatten(r));
      assert (r + [row])[..|r|] == r;
      r := r + [row];
    }
  }

  /** What is shown: the input keys in the drawn order, or the rows as they are. */
  function Presented<T>(all: seq<T>, randomizeInputKeys: bool, isInput: T -> bool, choices: seq<nat>): (shown: seq<T>)
    requires ValidChoices(choices, |Inputs(all, isInput)|)
    ensures |shown| == |all|
  {
    if randomizeInputKeys then Dealt(all, isInput, Shuffled(Inputs(all, isInput), choices)) else all
  }

  lemma PresentedAsIs<T>(all: seq<T>, isInput: T -> bool, choices: seq<nat>)
    requires ValidChoices(choices, |Inputs(all, isInput)|) && |Inputs(all, isInput)| <= 1
    ensures Presented(all, true, isInput, choices) == all
  {
    DealingBack(all, isInput);
  }

  method PresentationRows<T>(rows: seq<seq<T>>, randomizeInputKeys: bool, isInput: T -> bool, choices: seq<nat>)
    returns (r: seq<seq<T>>)
    requires ValidChoices(choices, |Inputs(Flatten(rows), isInput)|)
    ensures SameShape(r, rows)
    ensures Flatten(r) == Presented(Flatten(rows), randomizeInputKeys, isInput, choices)
    ensures !randomizeInputKeys || |Inputs(Flatten(rows), isInput)| <= 1 ==> r == rows
  {
    if !randomizeInputKeys {
      return rows;
    }
    var inputs := Inputs(Flatten(rows), isInput);
    if |inputs| <= 1 {
      PresentedAsIs(Flatten(rows), isInput, choices);
      return rows;
    }
    var inputItems := new T[|inputs|](i requires 0 <= i < |inputs| => inputs[i]);
    assert inputItems[..] == inputs;
    ShuffleInPlace(inputItems, choices);
    r := DealRows(rows, isInput, inputItems[..]);
  }

  /** A prefix holds no more inputs than the whole. */
  lemma {:induction false} InputsOfPrefix<T>(s: seq<T>, n: nat, isInput: T -> bool)
    requires n <= |s|
    ensures |Inputs(s[..n], isInput)| <= |Inputs(s, isInput)|
    decreases |s|
  {
    if n == |s| {
      assert s[..n] == s;
    } else {
      InputsOfPrefix(s[..|s| - 1], n, isInput);
      assert s[..|s| - 1][..n] == s[..n];
    }
  }

  lemma {:induction false} FlattenOfPart<T>(rows: seq<seq<T>>, i: nat)
    requires i <= |rows|
    ensures |Flatten(rows[..i])| <= |Flatten(rows)| && Flatten(rows[..i]) == Flatten(rows)[..|Flatten(rows[..i])|]
    decreases |rows|
  {
    if i == |rows| {
      assert rows[..i] == rows;
    } else {
      FlattenOfPart(rows[..|rows| - 1], i);
      assert rows[..|rows| - 1][..i] == rows[..i];
    }
  }

  lemma InputsOfPart<T>(rows: seq<seq<T>>, i: nat, isInput: T -> bool)
    requires i < |rows|
    ensures |Inputs(Flatten(rows[..i]) + rows[i], isInput)| <= |Inputs(Flatten(rows), isInput)|
  {
    assert rows[..i + 1][..i] == rows[..i];
    FlattenOfPart(rows, i + 1);
    InputsOfPrefix(Flatten(rows), |Flatten(rows[..i + 1])|, isInput);
  }

  // ---------------------------------------------------------------------
  // What the shuffle keeps

  lemma {:induction false} DealingBack<T>(s: seq<T>, isInput: T -> bool)
    ensures Dealt(s, isInput, Inputs(s, isInput)) == s
  {
    if s != [] {
      var n := |s| - 1;
      DealingBack(s[..n], isInput);
      DealtAgrees(s[..n], isInput, Inputs(s[..n], isInput), Inputs(s, isInput));
    }
  }

  /** Dealing looks at no more items than there are slots. */
  lemma {:induction false} DealtAgrees<T>(s: seq<T>, isInput: T -> bool, items: seq<T>, more: seq<T>)
    requires |items| >= |Inputs(s, isInput)| && items <= more
    ensures Dealt(s, isInput, items) == Dealt(s, isInput, more)
  {
    if s != [] {
      DealtAgrees(s[..|s| - 1], isInput, items, more);
    }
  }

  /**
   Every slot keeps its role: a slot holding anything but an input keeps it, an
   input slot gets an input, and the inputs in reading order are the items dealt.
   */
  lemma {:induction false} DealtKeepsOthers<T>(s: seq<T>, isInput: T -> bool, items: seq<T>)
    requires |items| >= |Inputs(s, isInput)| && forall i :: 0 <= i < |items| ==> isInput(items[i])
    ensures var r := Dealt(s, isInput, items);
            && (forall i :: 0 <= i < |s| ==> isInput(r[i]) == isInput(s[i]) && (!isInput(s[i]) ==> r[i] == s[i]))
            && Inputs(r, isInput) == items[..|Inputs(s, isInput)|]
  {
    if s != [] {
      var n := |s| - 1;
      DealtUnfolds(s, isInput, items);
      InputsUnfold(s, isInput);
      hide Dealt, Inputs;
      var front := s[..n];
      DealtKeepsOthers(front, isInput, items);
      var k := |Inputs(front, isInput)|;
      var dealt, slot := Dealt(front, isInput, items), if isInput(s[n]) then items[k] else s[n];
      Rejoined(s);
      SlotsAppend(front, s[n], dealt, slot, isInput);
      InputsAppend(dealt, slot, isInput);
      if isInput(s[n]) {
        Rejoined(items[..k + 1]);
        assert items[..k + 1][..k] == items[..k];
      }
    }
  }

  lemma Rejoined<T>(s: seq<T>)
    requires s != []
    ensures s == s[..|s| - 1] + [s[|s| - 1]]
  {
  }

  lemma SlotsAppend<T>(s: seq<T>, item: T, r: seq<T>, slot: T, isInput: T -> bool)
    requires |r| == |s| && isInput(slot) == isInput(item) && (!isInput(item) ==> slot == item)
    requires forall i :: 0 <= i < |s| ==> isInput(r[i]) == isInput(s[i]) && (!isInput(s[i]) ==> r[i] == s[i])
    ensures var s', r' := s + [item], r + [slot];
            forall i :: 0 <= i < |s'| ==> isInput(r'[i]) == isInput(s'[i]) && (!isInput(s'[i]) ==> r'[i] == s'[i])
  {
  }

  lemma InputsAppend<T>(s: seq<T>, item: T, isInput: T -> bool)
    ensures Inputs(s + [item], isInput) == Inputs(s, isInput) + if isInput(item) then [item] else []
  {
    InputsUnfold(s + [item], isInput);
    hide Inputs;
    assert (s + [item])[..|s|] == s;
  }

  lemma DealtUnfolds<T>(s: seq<T>, isInput: T -> bool, items: seq<T>)
    requires s != [] && |items| >= |Inputs(s, isInput)|
    ensures var n := |s| - 1;
            && |Inputs(s[..n], isInput)| <= |items| && (isInput(s[n]) ==> |Inputs(s[..n], isInput)| < |items|)
            && Dealt(s, isInput, items)
               == Dealt(s[..n], isInput, items) + [if isInput(s[n]) then items[|Inputs(s[..n], isInput)|] else s[n]]
  {
  }

  lemma InputsUnfold<T>(s: seq<T>, isInput: T -> bool)
    requires s != []
    ensures var n := |s| - 1;
            Inputs(s, isInput) == Inputs(s[..n], isInput) + if isInput(s[n]) then [s[n]] else []
  {
  }

  lemma {:induction false} InputsAreInputs<T>(s: seq<T>, isInput: T -> bool)
    ensures forall i :: 0 <= i < |Inputs(s, isInput)| ==> isInput(Inputs(s, isInput)[i])
  {
    if s != [] {
      InputsAreInputs(s[..|s| - 1], isInput);
    }
  }

  lemma SameItems<T>(a: seq<T>, b: seq<T>, isInput: T -> bool)
    requires multiset(a) == multiset(b) && forall i :: 0 <= i < |a| ==> isInput(a[i])
    ensures forall i :: 0 <= i < |b| ==> isInput(b[i])
  {
    forall i | 0 <= i < |b| ensures isInput(b[i]) {
      assert b[i] in multiset(b);
      assert b[i] in a;
    }
  }

  /** The presented keypad holds the same input keys, and its other keys where they were. */
  lemma PresentationKeepsKeys<T>(all: seq<T>, isInput: T -> bool, choices: seq<nat>)
    requires ValidChoices(choices, |Inputs(all, isInput)|)
    ensures var shown := Presented(all, true, isInput, choices);
            && (forall i :: 0 <= i < |all| ==>
                              isInput(shown[i]) == isInput(all[i]) && (!isInput(all[i]) ==> shown[i] == all[i]))
            && Inputs(shown, isInput) == Shuffled(Inputs(all, isInput), choices)
            && multiset(shown) == multiset(all)
  {
    var inputs := Inputs(all, isInput);
    var items := Shuffled(inputs, choices);
    InputsAreInputs(all, isInput);
    ShuffledKeepsItems(inputs, choices);
    SameItems(inputs, items, isInput);
    DealtKeepsOthers(all, isInput, items);
    var shown := Dealt(all, isInput, items);
    assert items[..|inputs|] == items;
    MultisetSplit(all, isInput);
    MultisetSplit(shown, isInput);
    OthersAgree(all, shown, isInput);
  }

  function Others<T>(s: seq<T>, isInput: T -> bool): seq<T> {
    if s == [] then []
    else
      var last := s[|s| - 1];
      Others(s[..|s| - 1], isInput) + if isInput(last) then [] else [last]
  }

  lemma {:induction false} MultisetSplit<T>(s: seq<T>, isInput: T -> bool)
    ensures multiset(s) == multiset(Inputs(s, isInput)) + multiset(Others(s, isInput))
  {
    if s != [] {
      hide *;
      var front, last := s[..|s| - 1], s[|s| - 1];
      MultisetSplit(front, isInput);
      assert s == front + [last];
      MultisetConcat(front, [last]);
      InputsUnfold(s, isInput);
      OthersUnfold(s, isInput);
      MultisetConcat(Inputs(front, isInput), if isInput(last) then [last] else []);
      MultisetConcat(Others(front, isInput), if isInput(last) then [] else [last]);
    }
  }

  lemma OthersUnfold<T>(s: seq<T>, isInput: T -> bool)
    requires s != []
    ensures var n := |s| - 1;
            Others(s, isInput) == Others(s[..n], isInput) + if isInput(s[n]) then [] else [s[n]]
  {
  }

  lemma MultisetConcat<T>(a: seq<T>, b: seq<T>)
    ensures multiset(a + b) == multiset(a) + multiset(b)
  {
  }

  lemma {:induction false} OthersAgree<T>(s: seq<T>, r: seq<T>, isInput: T -> bool)
    requires |s| == |r|
    requires forall i :: 0 <= i < |s| ==> isInput(r[i]) == isInput(s[i]) && (!isInput(s[i]) ==> r[i] == s[i])
    ensures Others(s, isInput) == Others(r, isInput)
  {
    if s != [] {
      OthersAgree(s[..|s| - 1], r[..|r| - 1], isInput);
    }
  }

  // ---------------------------------------------------------------------
  // Every order, exactly once

  function IndexOf<T(==)>(a: seq<T>, x: T): (i: nat)
    requires x in a
    ensures i < |a| && a[i] == x
  {
    if a[0] == x then 0 else 1 + IndexOf(a[1..], x)
  }

  /** The choices that bring `a` into the order `p`. */
  function ChoicesFor<T(==)>(a: seq<T>, p: seq<T>): (choices: seq<nat>)
    requires multiset(p) == multiset(a) && |p| == |a|
    ensures ValidChoices(choices, |a|)
    decreases |a|
  {
    if |a| <= 1 then []
    else
      var n := |a| - 1;
      LastIsThere(a, p);
      var j := IndexOf(a, p[n]);
      SwapKeepsItems(a, n, j);
      PrefixesMatch(Swapped(a, n, j), p);
      [j] + ChoicesFor(Swapped(a, n, j)[..n], p[..n])
  }

  lemma LastIsThere<T>(a: seq<T>, p: seq<T>)
    requires multiset(p) == multiset(a) && |p| > 0
    ensures p[|p| - 1] in a
  {
    assert p[|p| - 1] in multiset(p);
  }

  lemma PrefixesMatch<T>(s: seq<T>, p: seq<T>)
    requires multiset(s) == multiset(p) && |s| == |p| > 0 && s[|s| - 1] == p[|p| - 1]
    ensures multiset(s[..|s| - 1]) == multiset(p[..|p| - 1])
  {
    var n := |s| - 1;
    assert s == s[..n] + [s[n]] && p == p[..n] + [p[n]];
    MultisetConcat(s[..n], [s[n]]);
    MultisetConcat(p[..n], [p[n]]);
    assert multiset(s[..n]) == multiset(s) - multiset([s[n]]);
    assert multiset(p[..n]) == multiset(p) - multiset([p[n]]);
  }

  lemma ChoicesUnfold<T>(a: seq<T>, p: seq<T>)
    requires multiset(p) == multiset(a) && |p| == |a| > 1
    ensures var n := |a| - 1;
            && p[n] in a
            && var j := IndexOf(a, p[n]); var s := Swapped(a, n, j);
               && s[n] == p[n] && multiset(s[..n]) == multiset(p[..n])
               && ChoicesFor(a, p) == [j] + ChoicesFor(s[..n], p[..n])
  {
    var n := |a| - 1;
    LastIsThere(a, p);
    var j := IndexOf(a, p[n]);
    SwapKeepsItems(a, n, j);
    PrefixesMatch(Swapped(a, n, j), p);
  }

  lemma {:induction false} ReachesOrder<T>(a: seq<T>, p: seq<T>)
    requires multiset(p) == multiset(a) && |p| == |a|
    ensures Shuffled(a, ChoicesFor(a, p)) == p
    decreases |a|
  {
    if |a| > 1 {
      var n := |a| - 1;
      ChoicesUnfold(a, p);
      var choices := ChoicesFor(a, p);
      var s := Swapped(a, n, choices[0]);
      ShuffledUnfolds(a, choices);
      hide ChoicesFor, Shuffled, Swapped, IndexOf, ValidChoices;
      ReachesOrder(s[..n], p[..n]);
      assert choices[1..] == ChoicesFor(s[..n], p[..n]);
      assert p == p[..n] + [p[n]];
    } else if |a| == 1 {
      LastIsThere(a, p);
    }
  }

  /** Each order of distinct items comes from exactly one sequence of choices. */
  lemma {:induction false} EveryOrderOnce<T>(a: seq<T>, p: seq<T>, choices: seq<nat>)
    requires Distinct(a) && multiset(p) == multiset(a) && |p| == |a| && ValidChoices(choices, |a|)
    ensures Shuffled(a, choices) == p <==> choices == ChoicesFor(a, p)
    decreases |a|
  {
    ReachesOrder(a, p);
    if Shuffled(a, choices) == p && |a| > 1 {
      var n := |a| - 1;
      var s := Swapped(a, n, choices[0]);
      ChoicesUnfold(a, p);
      ShuffledUnfolds(a, choices);
      SwapKeepsItems(a, n, choices[0]);
      SwapKeepsDistinct(a, n, choices[0]);
      DistinctPrefix(s, n);
      FoundAt(a, choices[0]);
      hide ChoicesFor, Shuffled, Swapped, IndexOf, ValidChoices, Distinct;
      assert p[n] == s[n] && p[..n] == Shuffled(s[..n], choices[1..]);
      EveryOrderOnce(s[..n], p[..n], choices[1..]);
      assert choices == [choices[0]] + choices[1..];
    }
  }

  lemma DistinctPrefix<T>(a: seq<T>, n: nat)
    requires Distinct(a) && n <= |a|
    ensures Distinct(a[..n])
  {
  }

  lemma FoundAt<T>(a: seq<T>, i: nat)
    requires Distinct(a) && i < |a|
    ensures IndexOf(a, a[i]) == i
  {
    var k := IndexOf(a, a[i]);
    assert a[k] == a[i];
    assert k == i || k < i || i < k;
  }

  lemma SwapKeepsDistinct<T>(a: seq<T>, i: nat, j: nat)
    requires Distinct(a) && i < |a| && j < |a|
    ensures Distinct(Swapped(a, i, j))
  {
  }

  /**
   A randomized keypad of distinct input keys shows each order of them for exactly
   one sequence of choices.
   */
  lemma EveryKeypadOnce<T>(all: seq<T>, isInput: T -> bool, order: seq<T>, choices: seq<nat>)
    requires Distinct(Inputs(all, isInput)) && ValidChoices(choices, |Inputs(all, isInput)|)
    requires multiset(order) == multiset(Inputs(all, isInput)) && |order| == |Inputs(all, isInput)|
    ensures Inputs(Presented(all, true, isInput, choices), isInput) == order
            <==> choices == ChoicesFor(Inputs(all, isInput), order)
  {
    hide *;
    PresentationKeepsKeys(all, isInput, choices);
    EveryOrderOnce(Inputs(all, isInput), order, choices);
  }
}
