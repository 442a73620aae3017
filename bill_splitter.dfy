/** The state that `ContentView`, `FoodView`, `WhoAteWhat` and
    `CostPerPersonView` hold in `@State`, some of it passed on by `@Binding`,
    lifted out of the views into one object whose methods are the screens'
    actions. */
module FairShare {
  import opened Wrappers
  import Sums
  import Selection
  import PriceTable
  import Allocation

  class BillSplitter {
    /** `names`: one text field per participant. */
    var names: seq<string>
    /** `foods` and `prices`: one row of two text fields per item. */
    var foods: seq<string>
    var prices: seq<string>
    /** `food_price_dict`: food name to price text. */
    var foodPriceDict: map<string, string>
    /** `selectionDict`: the consumption toggles. */
    var selectionDict: Selection.Table
    /** `waw_dict`: who ate what. */
    var wawDict: Selection.Eaten
    /** `cost_per_head`: what each person owes. */
    var costPerHead: map<string, real>

    /** There is always a participant row and an item row, the two item
        columns have the same length, and every who-ate-what list names
        somebody, so the cost split never divides by zero. */
    ghost predicate Valid()
      reads this
    {
      && |names| >= 1
      && |foods| >= 1
      && |foods| == |prices|
      && Selection.NonEmptyLists(wawDict)
    }

    /** Every screen starts with one blank row and empty dictionaries. */
    constructor ()
      ensures Valid()
      ensures names == [""] && foods == [""] && prices == [""]
      ensures foodPriceDict == map[] && selectionDict == map[]
      ensures wawDict == map[] && costPerHead == map[]
    {
      names, foods, prices := [""], [""], [""];
      foodPriceDict, selectionDict := map[], map[];
      wawDict, costPerHead := map[], map[];
    }

    /** `addName`: one more blank participant row. */
    method AddName()
      requires Valid()
      modifies this`names
      ensures Valid()
      ensures names == old(names) + [""]
    {
      names := names + [""];
    }

    /** `removeName`: drop the last participant row, unless it is the only one. */
    method RemoveName()
      requires Valid()
      modifies this`names
      ensures Valid()
      ensures |old(names)| > 1 ==> names == old(names)[..|old(names)| - 1]
      ensures |old(names)| <= 1 ==> names == old(names)
    {
      if |names| > 1 {
        names := names[..|names| - 1];
      }
    }

    /** Typing into the text field of participant `i`. */
    method SetName(i: nat, text: string)
      requires Valid() && i < |names|
      modifies this`names
      ensures Valid()
      ensures names == old(names)[i := text]
    {
      names := names[i := text];
    }

    /** `addFood`: one more blank item row, in both columns. */
    method AddFood()
      requires Valid()
      modifies this`foods, this`prices
      ensures Valid()
      ensures foods == old(foods) + [""] && prices == old(prices) + [""]
    {
      foods := foods + [""];
      prices := prices + [""];
    }

    /** `removeFood`: drop the last item row from both columns, unless both
        have only one row. */
    method RemoveFood()
      requires Valid()
      modifies this`foods, this`prices
      ensures Valid()
      ensures |old(foods)| > 1 && |old(prices)| > 1 ==>
                foods == old(foods)[..|old(foods)| - 1] && prices == old(prices)[..|old(prices)| - 1]
      ensures !(|old(foods)| > 1 && |old(prices)| > 1) ==> foods == old(foods) && prices == old(prices)
    {
      if |foods| > 1 && |prices| > 1 {
        foods := foods[..|foods| - 1];
        prices := prices[..|prices| - 1];
      }
    }

    /** Typing into the name field of item `i`. */
    method SetFood(i: nat, text: string)
      requires Valid() && i < |foods|
      modifies this`foods
      ensures Valid()
      ensures foods == old(foods)[i := text]
    {
      foods := foods[i := text];
    }

    /** Typing into the price field of item `i`. */
    method SetPrice(i: nat, text: string)
      requires Valid() && i < |prices|
      modifies this`prices
      ensures Valid()
      ensures prices == old(prices)[i := text]
    {
      prices := prices[i := text];
    }

    /** `generateFoodPriceDict`: map each food name to the price on its row.
        Two rows with the same name make the source trap; the model reports
        `trapped` and changes nothing. */
    method GenerateFoodPriceDict() returns (trapped: bool)
      requires Valid()
      modifies this`foodPriceDict
      ensures Valid()
      ensures trapped <==> !PriceTable.Distinct(foods)
      ensures trapped ==> foodPriceDict == old(foodPriceDict)
      ensures !trapped ==> foodPriceDict.Keys == set i | 0 <= i < |foods| :: foods[i]
      ensures !trapped ==> forall i :: 0 <= i < |foods| ==> foodPriceDict[foods[i]] == prices[i]
    {
      var zipped := PriceTable.ZipDict(foods, prices);
      assert PriceTable.Min(|foods|, |prices|) == |foods| && foods[..|foods|] == foods;
      if zipped.None? {
        trapped := true;
      } else {
        trapped := false;
        foodPriceDict := zipped.value;
      }
    }

    /** "Next Page: Enter Food" pushes a new food screen, whose item rows and
        price table start afresh; the participant list is bound, not copied. */
    method OpenFoodScreen()
      requires Valid()
      modifies this`foods, this`prices, this`foodPriceDict
      ensures Valid()
      ensures foods == [""] && prices == [""] && foodPriceDict == map[]
    {
      foods, prices, foodPriceDict := [""], [""], map[];
    }

    /** "Next Page: Who Ate What?": build the price table, then push a new
        who-ate-what screen, whose toggles and who-ate-what lists start empty.
        When the table traps, nothing changes. */
    method OpenWhoAteWhat() returns (trapped: bool)
      requires Valid()
      modifies this`foodPriceDict, this`selectionDict, this`wawDict
      ensures Valid()
      ensures trapped <==> !PriceTable.Distinct(foods)
      ensures trapped ==>
                foodPriceDict == old(foodPriceDict) && selectionDict == old(selectionDict) && wawDict == old(wawDict)
      ensures !trapped ==> foodPriceDict.Keys == set i | 0 <= i < |foods| :: foods[i]
      ensures !trapped ==> forall i :: 0 <= i < |foods| ==> foodPriceDict[foods[i]] == prices[i]
      ensures !trapped ==> selectionDict == map[] && wawDict == map[]
    {
      trapped := GenerateFoodPriceDict();
      if !trapped {
        selectionDict, wawDict := map[], map[];
      }
    }

    /** The toggle getter for item row `foodIndex` and participant row `nameIndex`. */
    function IsSelectedAt(foodIndex: nat, nameIndex: nat): bool
      reads this
      requires Valid() && foodIndex < |foods| && nameIndex < |names|
    {
      Selection.IsSelected(selectionDict, foods[foodIndex], names[nameIndex])
    }

    /** The toggle setter for item row `foodIndex` and participant row
        `nameIndex`: that toggle now reads `value`, no other one changes. */
    method SetSelectedAt(foodIndex: nat, nameIndex: nat, value: bool)
      requires Valid() && foodIndex < |foods| && nameIndex < |names|
      modifies this`selectionDict
      ensures Valid()
      ensures selectionDict == Selection.SetSelected(old(selectionDict), foods[foodIndex], names[nameIndex], value)
      ensures IsSelectedAt(foodIndex, nameIndex) == value
      ensures forall f, p :: f != foods[foodIndex] || p != names[nameIndex] ==>
                Selection.IsSelected(selectionDict, f, p) == Selection.IsSelected(old(selectionDict), f, p)
    {
      selectionDict := Selection.SetSelected(selectionDict, foods[foodIndex], names[nameIndex], value);
    }

    /** `confirmSelections` as written: the ticked people are appended to the
        `waw_dict` left by any earlier confirmation. */
    method ConfirmSelections()
      requires Valid()
      modifies this`wawDict
      ensures Valid()
      ensures Selection.Collected(old(wawDict), wawDict, selectionDict)
    {
      ghost var before := wawDict;
      wawDict := Selection.CollectEaters(selectionDict, wawDict);
      Selection.CollectedKeepsListsNonEmpty(before, wawDict, selectionDict);
    }

    /** "Confirm": run `confirmSelections`, then push a new cost screen, whose
        `cost_per_head` is computed as it appears. */
    method Confirm(parse: string -> Option<real>)
      requires Valid()
      modifies this`wawDict, this`costPerHead
      ensures Valid()
      ensures Selection.Collected(old(wawDict), wawDict, selectionDict)
      ensures costPerHead == Allocation.Allocate(wawDict, foodPriceDict, parse, wawDict.Keys)
    {
      ConfirmSelections();
      CalculateCostPerPerson(parse);
    }

    /** `confirmSelections` starting from an empty `waw_dict`: whatever was
        confirmed before, a person is listed under a food exactly when their
        toggle for it is on, once. */
    method ConfirmSelectionsFresh()
      requires Valid()
      modifies this`wawDict
      ensures Valid()
      ensures Selection.Collected(map[], wawDict, selectionDict)
      ensures forall f, p :: (f in wawDict && p in wawDict[f]) <==> Selection.IsSelected(selectionDict, f, p)
    {
      wawDict := Selection.CollectEaters(selectionDict, map[]);
      Selection.CollectedKeepsListsNonEmpty(map[], wawDict, selectionDict);
      Selection.CollectedFromEmpty(selectionDict, wawDict);
    }

    /** `calculateCostPerPerson`: rebuild `cost_per_head` from an empty
        dictionary, with `parse` standing for `Float(String)`. */
    method CalculateCostPerPerson(parse: string -> Option<real>)
      requires Valid()
      modifies this`costPerHead
      ensures Valid()
      ensures costPerHead == Allocation.Allocate(wawDict, foodPriceDict, parse, wawDict.Keys)
    {
      costPerHead := Allocation.CostPerPerson(wawDict, foodPriceDict, parse);
    }
  }

  /** After a fresh confirmation, a person owes something exactly when they
      ticked some item whose price parses. */
  lemma ChargedIffTicked(sel: Selection.Table, waw: Selection.Eaten, fpd: map<string, string>,
                         parse: string -> Option<real>, person: string)
    requires Selection.Collected(map[], waw, sel)
    ensures person in Allocation.Allocate(waw, fpd, parse, waw.Keys)
        <==> exists food :: Selection.IsSelected(sel, food, person) && Allocation.Price(fpd, parse, food).Some?
  {
    Selection.CollectedFromEmpty(sel, waw);
    Selection.CollectedKeepsListsNonEmpty(map[], waw, sel);
    Allocation.AllocateKeys(waw, fpd, parse, waw.Keys, person);
    if exists food :: Selection.IsSelected(sel, food, person) && Allocation.Price(fpd, parse, food).Some? {
      var food :| Selection.IsSelected(sel, food, person) && Allocation.Price(fpd, parse, food).Some?;
      assert food in waw && person in waw[food];
      assert Allocation.Allocated(waw, fpd, parse, food);
    }
  }

  /** Bob, listed once among the three eaters of a 30.00 pizza, pays 10. */
  lemma ThirdOfThePizza(waw: Selection.Eaten, parse: string -> Option<real>)
    requires waw.Keys == {"Pizza"} && multiset(waw["Pizza"]) == multiset{"Alice", "Alice", "Bob"}
    requires parse("30.00") == Some(30.0)
    ensures Sums.Get0(Allocation.Allocate(waw, map["Pizza" := "30.00"], parse, waw.Keys), "Bob") == 10.0
  {
    var fpd := map["Pizza" := "30.00"];
    Allocation.SoleFoodShare(waw, fpd, parse, "Pizza", "Bob");
    assert Allocation.Count(waw["Pizza"], "Bob") == 1;
    assert |waw["Pizza"]| == 3 by {
      assert |waw["Pizza"]| == |multiset(waw["Pizza"])|;
    }
  }

  /** The cost of confirming twice: with a 30.00 pizza ticked by Alice and
      Bob, confirmed, then unticked by Bob and confirmed again, Bob still owes
      10.00 for it. */
  lemma UntickedEaterCharged(first: Selection.Eaten, second: Selection.Eaten, parse: string -> Option<real>)
    requires Selection.Collected(map[], first, map["Pizza" := map["Alice" := true, "Bob" := true]])
    requires Selection.Collected(first, second, map["Pizza" := map["Alice" := true, "Bob" := false]])
    requires parse("30.00") == Some(30.0)
    ensures Sums.Get0(Allocation.Allocate(second, map["Pizza" := "30.00"], parse, second.Keys), "Bob") == 10.0
  {
    Selection.ReconfirmKeepsUntickedEater(first, second);
    ThirdOfThePizza(second, parse);
  }
}
