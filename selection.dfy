/** The "who ate what" screen: `selectionDict`, the table of consumption
    toggles (food -> person -> Bool), and `confirmSelections`, which turns it
    into `waw_dict`, the list of eaters of each food. */
module Selection {

  type Table = map<string, map<string, bool>>
  type Eaten = map<string, seq<string>>

  /** `selectionDict[food, default: [:]]`. */
  function Row(sel: Table, food: string): map<string, bool>
  {
    if food in sel then sel[food] else map[]
  }

  /** The toggle getter: a missing food or person reads as false. */
  function IsSelected(sel: Table, food: string, person: string): bool
  {
    var row := Row(sel, food);
    person in row && row[person]
  }

  /** The toggle setter: it writes exactly one (food, person) entry, creating
      the food's row when it is missing, even when the value is false. */
  function SetSelected(sel: Table, food: string, person: string, value: bool): (r: Table)
    ensures IsSelected(r, food, person) == value
    ensures forall f, p :: f != food || p != person ==> IsSelected(r, f, p) == IsSelected(sel, f, p)
    ensures r.Keys == sel.Keys + {food}
    ensures r[food].Keys == Row(sel, food).Keys + {person}
    ensures forall f :: f in sel && f != food ==> r[f] == sel[f]
  {
    if food !in sel then sel[food := map[person := value]]
    else sel[food := sel[food][person := value]]
  }

  /** The people among `people` whose toggle in `row` is on. */
  function Picked(row: map<string, bool>, people: set<string>): set<string>
  {
    set p | p in people && p in row && row[p]
  }

  /** Everyone whose toggle for `food` is on. */
  function EatersOf(sel: Table, food: string): set<string>
  {
    Picked(Row(sel, food), Row(sel, food).Keys)
  }

  /** The list recorded for `food`, or the empty list. */
  function ListOf(waw: Eaten, food: string): seq<string>
  {
    if food in waw then waw[food] else []
  }

  /** The entry of `food` in `after` is its entry in `before` with `eaters`
      appended, once each and in some order; a food gets a list only when it
      had one already or somebody is appended. */
  ghost predicate Gathered(before: Eaten, after: Eaten, food: string, eaters: set<string>)
  {
    && (food in after <==> food in before || eaters != {})
    && (food in after ==> multiset(after[food]) == multiset(ListOf(before, food)) + multiset(eaters))
  }

  /** `after` is what one run of `confirmSelections` makes of `before`. */
  ghost predicate Collected(before: Eaten, after: Eaten, sel: Table)
  {
    forall f :: Gathered(before, after, f, EatersOf(sel, f))
  }

  /** The ticked people of `food`, counting only foods already visited. */
  function EatersIn(sel: Table, food: string, done: set<string>): set<string>
  {
    if food in done then EatersOf(sel, food) else {}
  }

  /** The state of `waw_dict` once the foods in `done` have been visited. */
  ghost predicate CollectedOver(before: Eaten, after: Eaten, sel: Table, done: set<string>)
  {
    forall f :: Gathered(before, after, f, EatersIn(sel, f, done))
  }

  /** No list in `waw` is empty. */
  ghost predicate NonEmptyLists(waw: Eaten)
  {
    forall f :: f in waw ==> |waw[f]| > 0
  }

  /** Visiting one more person of a row picks them exactly when they are ticked. */
  lemma PickedStep(row: map<string, bool>, seen: set<string>, person: string)
    requires person in row
    ensures Picked(row, seen + {person}) == if row[person] then Picked(row, seen) + {person} else Picked(row, seen)
  {
  }

  /** Appending one more ticked person to the food's list, or creating the
      list with that person, keeps `Gathered` with that person added. */
  lemma GatheredAppend(waw: Eaten, after: Eaten, food: string, eaters: set<string>, person: string)
    requires Gathered(waw, after, food, eaters) && person !in eaters
    ensures Gathered(waw, after[food := ListOf(after, food) + [person]], food, eaters + {person})
  {
  }

  /** The inner loop of `confirmSelections` for one food: visit the people
      of its row in whatever order the dictionary yields them, and append
      every ticked person to the food's list, creating the list with that
      person when the food has none yet. Other foods are left alone. */
  method AppendTicked(waw: Eaten, food: string, row: map<string, bool>) returns (after: Eaten)
    ensures after - {food} == waw - {food}
    ensures Gathered(waw, after, food, Picked(row, row.Keys))
  {
    after := waw;
    var people := row.Keys;
    assert Picked(row, row.Keys - people) == {};
    while people != {}
      invariant people <= row.Keys
      invariant forall f :: f != food ==> (f in after <==> f in waw) && (f in after ==> after[f] == waw[f])
      invariant Gathered(waw, after, food, Picked(row, row.Keys - people))
      decreases people
    {
      var person :| person in people;
      ghost var seen := row.Keys - people;
      ghost var picked := Picked(row, seen);
      if row[person] {
        ghost var before := after;
        if food in after {
          after := after[food := after[food] + [person]];
          assert ListOf(before, food) == before[food];
        } else {
          after := after[food := [person]];
          assert ListOf(before, food) + [person] == [person];
        }
        assert after == before[food := ListOf(before, food) + [person]];
        GatheredAppend(waw, before, food, picked, person);
      }
      PickedStep(row, seen, person);
      people := people - {person};
      assert row.Keys - people == seen + {person};
    }
    assert row.Keys - people == row.Keys;
  }

  /** Visiting one more food keeps `CollectedOver` for the foods seen so far. */
  lemma CollectedOverStep(before: Eaten, mid: Eaten, after: Eaten, sel: Table, done: set<string>, food: string)
    requires CollectedOver(before, mid, sel, done) && food !in done
    requires after - {food} == mid - {food}
    requires Gathered(mid, after, food, EatersOf(sel, food))
    ensures CollectedOver(before, after, sel, done + {food})
  {
    forall f
      ensures Gathered(before, after, f, EatersIn(sel, f, done + {food}))
    {
      assert Gathered(before, mid, f, EatersIn(sel, f, done));
      if f == food {
        assert EatersIn(sel, f, done) == {};
      } else {
        assert EatersIn(sel, f, done + {food}) == EatersIn(sel, f, done);
        assert f in after <==> f in after - {food};
        assert f in mid <==> f in mid - {food};
        if f in after {
          assert after[f] == (after - {food})[f] == mid[f];
        }
      }
    }
  }

  /** `confirmSelections`: for each food of the table, in whatever order the
      dictionary yields them, append its ticked people to `waw_dict`. */
  method CollectEaters(sel: Table, before: Eaten) returns (after: Eaten)
    ensures Collected(before, after, sel)
  {
    after := before;
    var foods := sel.Keys;
    assert CollectedOver(before, after, sel, {}) by {
      forall f ensures Gathered(before, after, f, EatersIn(sel, f, {})) {
        assert ListOf(before, f) == if f in before then before[f] else [];
      }
    }
    assert sel.Keys - foods == {};
    while foods != {}
      invariant foods <= sel.Keys
      invariant CollectedOver(before, after, sel, sel.Keys - foods)
      decreases foods
    {
      var food :| food in foods;
      ghost var done := sel.Keys - foods;
      ghost var mid := after;
      after := AppendTicked(after, food, sel[food]);
      assert Picked(sel[food], sel[food].Keys) == EatersOf(sel, food);
      CollectedOverStep(before, mid, after, sel, done, food);
      foods := foods - {food};
      assert sel.Keys - foods == done + {food};
    }
    forall f
      ensures Gathered(before, after, f, EatersOf(sel, f))
    {
      assert Gathered(before, after, f, EatersIn(sel, f, sel.Keys - foods));
      if f !in sel {
        assert EatersOf(sel, f) == {};
      }
    }
  }

  /** From an empty `waw_dict`, a person is listed under a food exactly when
      their toggle for it is on, and is listed there at most once. */
  lemma CollectedFromEmpty(sel: Table, after: Eaten)
    requires Collected(map[], after, sel)
    ensures forall f, p :: (f in after && p in after[f]) <==> IsSelected(sel, f, p)
    ensures forall f, p :: f in after ==> multiset(after[f])[p] <= 1
  {
    forall f, p
      ensures (f in after && p in after[f]) <==> IsSelected(sel, f, p)
    {
      assert Gathered(map[], after, f, EatersOf(sel, f));
      assert p in EatersOf(sel, f) <==> IsSelected(sel, f, p);
      if f in after {
        assert multiset(after[f]) == multiset(EatersOf(sel, f));
        assert p in after[f] <==> p in multiset(after[f]);
      } else {
        assert EatersOf(sel, f) == {};
      }
    }
    forall f, p | f in after
      ensures multiset(after[f])[p] <= 1
    {
      assert Gathered(map[], after, f, EatersOf(sel, f));
      assert multiset(after[f]) == multiset(EatersOf(sel, f));
    }
  }

  /** `confirmSelections` never removes: every list it is given survives,
      with at least the entries it had. */
  lemma CollectedOnlyAppends(before: Eaten, after: Eaten, sel: Table)
    requires Collected(before, after, sel)
    ensures forall f :: f in before ==> f in after && multiset(before[f]) <= multiset(after[f])
  {
    forall f | f in before
      ensures f in after && multiset(before[f]) <= multiset(after[f])
    {
      assert Gathered(before, after, f, EatersOf(sel, f));
      assert ListOf(before, f) == before[f];
    }
  }

  /** Every list `confirmSelections` leaves is non-empty, provided the lists it
      was given were: a list is created only with a ticked person in it. */
  lemma CollectedKeepsListsNonEmpty(before: Eaten, after: Eaten, sel: Table)
    requires Collected(before, after, sel) && NonEmptyLists(before)
    ensures NonEmptyLists(after)
  {
    forall f | f in after
      ensures |after[f]| > 0
    {
      assert Gathered(before, after, f, EatersOf(sel, f));
      if f in before {
        assert |multiset(before[f])| > 0;
      } else {
        var p :| p in EatersOf(sel, f);
        assert p in multiset(after[f]);
      }
    }
  }

  /** Confirming twice keeps a person who was unticked in between: Alice and
      Bob tick Pizza, the selections are confirmed, Bob unticks it and the
      selections are confirmed again. Bob is still listed, and Alice is listed
      twice, so three eaters are counted. */
  lemma ReconfirmKeepsUntickedEater(first: Eaten, second: Eaten)
    requires Collected(map[], first, map["Pizza" := map["Alice" := true, "Bob" := true]])
    requires Collected(first, second, map["Pizza" := map["Alice" := true, "Bob" := false]])
    ensures !IsSelected(map["Pizza" := map["Alice" := true, "Bob" := false]], "Pizza", "Bob")
    ensures second.Keys == {"Pizza"} && "Bob" in second["Pizza"]
    ensures multiset(second["Pizza"]) == multiset{"Alice", "Alice", "Bob"}
  {
    var sel1 := map["Pizza" := map["Alice" := true, "Bob" := true]];
    var sel2 := map["Pizza" := map["Alice" := true, "Bob" := false]];
    assert EatersOf(sel1, "Pizza") == {"Alice", "Bob"} by {
      assert IsSelected(sel1, "Pizza", "Alice") && IsSelected(sel1, "Pizza", "Bob");
    }
    assert EatersOf(sel2, "Pizza") == {"Alice"} by {
      assert IsSelected(sel2, "Pizza", "Alice");
    }
    assert "Pizza" in first;
    assert multiset(first["Pizza"]) == multiset{"Alice", "Bob"};
    assert multiset(second["Pizza"]) == multiset{"Alice", "Bob", "Alice"};
    assert "Bob" in multiset(second["Pizza"]);
    forall f | f in second
      ensures f == "Pizza"
    {
      assert Gathered(first, second, f, EatersOf(sel2, f));
      assert Gathered(map[], first, f, EatersOf(sel1, f));
    }
  }
}
