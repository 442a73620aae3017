/** The cost split of `CostPerPersonView.calculateCostPerPerson`: every food
    with a parseable price is divided evenly among the people listed as having
    eaten it, and each share is added to that person's running total.
    Money is exact (`real`); the source's `Float` rounding is not modelled. */
module Allocation {
  import opened Wrappers
  import opened Sums
  import Selection

  /** How often `x` is listed in `people`. */
  function Count(people: seq<string>, x: string): nat
  {
    multiset(people)[x]
  }

  /** `amount` added `n` times over, as the inner loop adds it. */
  function Times(n: nat, amount: real): real
  {
    if n == 0 then 0.0 else Times(n - 1, amount) + amount
  }

  /** `if let priceString = food_price_dict[food], let price = Float(priceString)`:
      the price of a food, or None when it has no price text or the text does
      not parse. */
  function Price(fpd: map<string, string>, parse: string -> Option<real>, food: string): Option<real>
  {
    if food in fpd then parse(fpd[food]) else None
  }

  /** A food whose price is charged: it is in `waw`, somebody ate it and its price parses. */
  predicate Allocated(waw: Selection.Eaten, fpd: map<string, string>, parse: string -> Option<real>, food: string)
  {
    food in waw && |waw[food]| > 0 && Price(fpd, parse, food).Some?
  }

  /** What `food` adds to the total of `person`: price / eaters, once per listing. */
  function Share(waw: Selection.Eaten, fpd: map<string, string>, parse: string -> Option<real>, food: string, person: string): real
  {
    if Allocated(waw, fpd, parse, food)
    then Times(Count(waw[food], person), Price(fpd, parse, food).value / (|waw[food]| as real))
    else 0.0
  }

  function ShareOf(waw: Selection.Eaten, fpd: map<string, string>, parse: string -> Option<real>, person: string): string -> real
  {
    food => Share(waw, fpd, parse, food, person)
  }

  /** The amount `food` puts on the bill: its price when it is allocated, nothing otherwise. */
  function Charged(waw: Selection.Eaten, fpd: map<string, string>, parse: string -> Option<real>, food: string): real
  {
    if Allocated(waw, fpd, parse, food) then Price(fpd, parse, food).value else 0.0
  }

  function ChargedOf(waw: Selection.Eaten, fpd: map<string, string>, parse: string -> Option<real>): string -> real
  {
    food => Charged(waw, fpd, parse, food)
  }

  /** The inner loop `for person in people { costDict[person, default: 0] += amount }`. */
  function AddEach(cost: map<string, real>, people: seq<string>, amount: real): map<string, real>
  {
    if people == [] then cost
    else
      var before := AddEach(cost, people[..|people| - 1], amount);
      var person := people[|people| - 1];
      before[person := Get0(before, person) + amount]
  }

  /** One iteration of the outer loop: add the shares of `food`, if it is allocated.
      The fold is defined for any `waw`: an empty list adds nothing, just as the
      inner loop adds nothing for it. */
  function AddFood(cost: map<string, real>, waw: Selection.Eaten, fpd: map<string, string>, parse: string -> Option<real>, food: string): map<string, real>
  {
    if Allocated(waw, fpd, parse, food)
    then AddEach(cost, waw[food], Price(fpd, parse, food).value / (|waw[food]| as real))
    else cost
  }

  /** The dictionary `calculateCostPerPerson` builds from an empty one, after
      visiting the foods of `foods` in an arbitrary order. */
  ghost function Allocate(waw: Selection.Eaten, fpd: map<string, string>, parse: string -> Option<real>, foods: set<string>): map<string, real>
    decreases foods
  {
    if foods == {} then map[]
    else var food :| food in foods; AddFood(Allocate(waw, fpd, parse, foods - {food}), waw, fpd, parse, food)
  }

  /** Adding an amount once per listing: the keys gain the listed people. */
  lemma {:induction false} AddEachKeys(cost: map<string, real>, people: seq<string>, amount: real)
    ensures AddEach(cost, people, amount).Keys == cost.Keys + (set x | x in people)
    decreases |people|
  {
    if people != [] {
      var init, last := people[..|people| - 1], people[|people| - 1];
      assert people == init + [last];
      AddEachKeys(cost, init, amount);
      assert (set x | x in people) == (set x | x in init) + {last};
    }
  }

  /** Every person's total grows by the amount once per listing. */
  lemma {:induction false} AddEachAt(cost: map<string, real>, people: seq<string>, amount: real, x: string)
    ensures Get0(AddEach(cost, people, amount), x) == Get0(cost, x) + Times(Count(people, x), amount)
    decreases |people|
  {
    if people != [] {
      var init, last := people[..|people| - 1], people[|people| - 1];
      assert people == init + [last];
      AddEachAt(cost, init, amount, x);
      AddEachSnoc(cost, init, last, amount, x);
      assert multiset(people) == multiset(init) + multiset{last};
    }
  }

  /** The last listing adds the amount once, to the last person only. */
  lemma AddEachSnoc(cost: map<string, real>, init: seq<string>, last: string, amount: real, x: string)
    ensures Get0(AddEach(cost, init + [last], amount), x)
         == Get0(AddEach(cost, init, amount), x) + (if x == last then amount else 0.0)
  {
  }

  /** Each listing adds the amount once to the total of the dictionary. */
  lemma {:induction false} AddEachTotal(cost: map<string, real>, people: seq<string>, amount: real)
    ensures Total(AddEach(cost, people, amount)) == Total(cost) + Times(|people|, amount)
    decreases |people|
  {
    if people != [] {
      var init := people[..|people| - 1];
      AddEachTotal(cost, init, amount);
      var before := AddEach(cost, init, amount);
      var person := people[|people| - 1];
      assert AddEach(cost, people, amount) == before[person := Get0(before, person) + amount];
      TotalUpdate(before, person, Get0(before, person) + amount);
    }
  }

  /** Adding `amount` `n` times is multiplying it by `n`. */
  lemma {:induction false} TimesIsProduct(n: nat, amount: real)
    ensures Times(n, amount) == (n as real) * amount
  {
    if n > 0 {
      TimesIsProduct(n - 1, amount);
      assert (n as real) * amount == ((n - 1) as real) * amount + amount;
    }
  }

  /** The even shares of a price add back up to the price. */
  lemma EvenSplitAddsUp(n: nat, price: real)
    requires n > 0
    ensures Times(n, price / (n as real)) == price
  {
    TimesIsProduct(n, price / (n as real));
  }

  /** Two passes of the inner loop commute. */
  lemma AddEachCommutes(cost: map<string, real>, p: seq<string>, a: real, q: seq<string>, b: real)
    ensures AddEach(AddEach(cost, p, a), q, b) == AddEach(AddEach(cost, q, b), p, a)
  {
    var pq, qp := AddEach(AddEach(cost, p, a), q, b), AddEach(AddEach(cost, q, b), p, a);
    AddEachKeys(cost, p, a);
    AddEachKeys(cost, q, b);
    AddEachKeys(AddEach(cost, p, a), q, b);
    AddEachKeys(AddEach(cost, q, b), p, a);
    assert pq.Keys == qp.Keys;
    forall x | x in pq
      ensures pq[x] == qp[x]
    {
      AddEachAt(cost, p, a, x);
      AddEachAt(cost, q, b, x);
      AddEachAt(AddEach(cost, p, a), q, b, x);
      AddEachAt(AddEach(cost, q, b), p, a, x);
      assert Get0(pq, x) == Get0(qp, x);
    }
  }

  /** Two iterations of the outer loop commute. */
  lemma AddFoodCommutes(cost: map<string, real>, waw: Selection.Eaten, fpd: map<string, string>, parse: string -> Option<real>, f: string, g: string)
    ensures AddFood(AddFood(cost, waw, fpd, parse, f), waw, fpd, parse, g)
         == AddFood(AddFood(cost, waw, fpd, parse, g), waw, fpd, parse, f)
  {
    if Allocated(waw, fpd, parse, f) && Allocated(waw, fpd, parse, g) {
      AddEachCommutes(cost, waw[f], Price(fpd, parse, f).value / (|waw[f]| as real),
                      waw[g], Price(fpd, parse, g).value / (|waw[g]| as real));
    }
  }

  /** The order in which foods are visited does not matter. */
  lemma {:induction false} AllocateRemove(waw: Selection.Eaten, fpd: map<string, string>, parse: string -> Option<real>, foods: set<string>, food: string)
    requires food in foods
    ensures Allocate(waw, fpd, parse, foods) == AddFood(Allocate(waw, fpd, parse, foods - {food}), waw, fpd, parse, food)
    decreases foods
  {
    var first :| first in foods && Allocate(waw, fpd, parse, foods) == AddFood(Allocate(waw, fpd, parse, foods - {first}), waw, fpd, parse, first);
    if first != food {
      AllocateRemove(waw, fpd, parse, foods - {first}, food);
      AllocateRemove(waw, fpd, parse, foods - {food}, first);
      assert foods - {first} - {food} == foods - {food} - {first};
      AddFoodCommutes(Allocate(waw, fpd, parse, foods - {first} - {food}), waw, fpd, parse, food, first);
    }
  }

  /** One iteration of the outer loop adds the food's share to each person. */
  lemma AddFoodAt(cost: map<string, real>, waw: Selection.Eaten, fpd: map<string, string>, parse: string -> Option<real>, food: string, person: string)
    ensures Get0(AddFood(cost, waw, fpd, parse, food), person) == Get0(cost, person) + Share(waw, fpd, parse, food, person)
  {
    if Allocated(waw, fpd, parse, food) {
      AddEachAt(cost, waw[food], Price(fpd, parse, food).value / (|waw[food]| as real), person);
    }
  }

  /** One iteration of the outer loop adds the food's price to the total. */
  lemma AddFoodTotal(cost: map<string, real>, waw: Selection.Eaten, fpd: map<string, string>, parse: string -> Option<real>, food: string)
    ensures Total(AddFood(cost, waw, fpd, parse, food)) == Total(cost) + Charged(waw, fpd, parse, food)
  {
    if Allocated(waw, fpd, parse, food) {
      var price := Price(fpd, parse, food).value;
      AddEachTotal(cost, waw[food], price / (|waw[food]| as real));
      EvenSplitAddsUp(|waw[food]|, price);
    }
  }

  /** A person has an entry exactly when some allocated food lists them;
      a person who ate nothing allocated is absent, not present with zero. */
  lemma {:induction false} AllocateKeys(waw: Selection.Eaten, fpd: map<string, string>, parse: string -> Option<real>, foods: set<string>, person: string)
    ensures person in Allocate(waw, fpd, parse, foods)
        <==> exists food :: food in foods && Allocated(waw, fpd, parse, food) && person in waw[food]
    decreases foods
  {
    if foods != {} {
      var food :| food in foods;
      AllocateRemove(waw, fpd, parse, foods, food);
      AllocateKeys(waw, fpd, parse, foods - {food}, person);
      var rest := Allocate(waw, fpd, parse, foods - {food});
      if Allocated(waw, fpd, parse, food) {
        AddEachKeys(rest, waw[food], Price(fpd, parse, food).value / (|waw[food]| as real));
      }
      if person in Allocate(waw, fpd, parse, foods) && person !in rest {
        assert Allocated(waw, fpd, parse, food) && person in waw[food];
      }
    }
  }

  /** Each person's total is the sum, over the foods, of price / eaters for
      every time the food lists them. */
  lemma {:induction false} AllocateAt(waw: Selection.Eaten, fpd: map<string, string>, parse: string -> Option<real>, foods: set<string>, person: string)
    ensures Get0(Allocate(waw, fpd, parse, foods), person) == SumOver(foods, ShareOf(waw, fpd, parse, person))
    decreases foods
  {
    if foods != {} {
      var food :| food in foods;
      AllocateRemove(waw, fpd, parse, foods, food);
      AllocateAt(waw, fpd, parse, foods - {food}, person);
      SumOverRemove(foods, ShareOf(waw, fpd, parse, person), food);
      AddFoodAt(Allocate(waw, fpd, parse, foods - {food}), waw, fpd, parse, food, person);
    }
  }

  /** Conservation: the totals add up to the prices of the allocated foods. */
  lemma {:induction false} AllocateTotal(waw: Selection.Eaten, fpd: map<string, string>, parse: string -> Option<real>, foods: set<string>)
    ensures Total(Allocate(waw, fpd, parse, foods)) == SumOver(foods, ChargedOf(waw, fpd, parse))
    decreases foods
  {
    if foods == {} {
      assert Total(map[]) == 0.0;
    } else {
      var food :| food in foods;
      AllocateRemove(waw, fpd, parse, foods, food);
      AllocateTotal(waw, fpd, parse, foods - {food});
      SumOverRemove(foods, ChargedOf(waw, fpd, parse), food);
      AddFoodTotal(Allocate(waw, fpd, parse, foods - {food}), waw, fpd, parse, food);
    }
  }

  /** With a single food, each person owes exactly their share of it. */
  lemma SoleFoodShare(waw: Selection.Eaten, fpd: map<string, string>, parse: string -> Option<real>, food: string, person: string)
    requires waw.Keys == {food}
    ensures Get0(Allocate(waw, fpd, parse, waw.Keys), person) == Share(waw, fpd, parse, food, person)
  {
    AllocateRemove(waw, fpd, parse, waw.Keys, food);
    assert waw.Keys - {food} == {};
    AddFoodAt(map[], waw, fpd, parse, food, person);
  }

  /** A food with no price text, or with text that does not parse, or with
      nobody listed, changes nothing: it is excluded entirely. */
  lemma ExcludedFoodIgnored(waw: Selection.Eaten, fpd: map<string, string>, parse: string -> Option<real>, foods: set<string>, food: string)
    requires food in foods
    requires !Allocated(waw, fpd, parse, food)
    ensures Allocate(waw, fpd, parse, foods) == Allocate(waw, fpd, parse, foods - {food})
  {
    AllocateRemove(waw, fpd, parse, foods, food);
  }

  /** The loops of `calculateCostPerPerson`: start from an empty dictionary,
      visit the foods of `waw` in whatever order the dictionary yields them,
      and add each priced food's share to every person listed for it. Every
      list names somebody, so the division is by a positive count.
      Whatever the order, the result is `Allocate` over all the foods. */
  method CostPerPerson(waw: Selection.Eaten, fpd: map<string, string>, parse: string -> Option<real>)
    returns (costDict: map<string, real>)
    requires Selection.NonEmptyLists(waw)
    ensures costDict == Allocate(waw, fpd, parse, waw.Keys)
  {
    costDict := map[];
    var remaining := waw.Keys;
    while remaining != {}
      invariant remaining <= waw.Keys
      invariant costDict == Allocate(waw, fpd, parse, waw.Keys - remaining)
      decreases remaining
    {
      var food :| food in remaining;
      var people := waw[food];
      ghost var before := costDict;
      if food in fpd && parse(fpd[food]).Some? {
        var price := parse(fpd[food]).value;
        var costPerPerson := price / (|people| as real);
        var i := 0;
        while i < |people|
          invariant 0 <= i <= |people|
          invariant costDict == AddEach(before, people[..i], costPerPerson)
        {
          assert people[..i + 1][..i] == people[..i];
          costDict := costDict[people[i] := Get0(costDict, people[i]) + costPerPerson];
          i := i + 1;
        }
        assert people[..i] == people;
      }
      ghost var done := waw.Keys - remaining;
      AllocateRemove(waw, fpd, parse, done + {food}, food);
      assert done + {food} - {food} == done;
      remaining := remaining - {food};
      assert waw.Keys - remaining == done + {food};
    }
    assert waw.Keys - remaining == waw.Keys;
  }

  /** The worked example: Alice and Bob share a 20.00 pizza and Alice alone
      drinks a 4.00 soda, so Alice owes 14 and Bob owes 10. */
  lemma PizzaAndSoda(parse: string -> Option<real>)
    requires parse("20.00") == Some(20.0) && parse("4.00") == Some(4.0)
    ensures Allocate(map["Pizza" := ["Alice", "Bob"], "Soda" := ["Alice"]],
                     map["Pizza" := "20.00", "Soda" := "4.00"], parse, {"Pizza", "Soda"})
         == map["Alice" := 14.0, "Bob" := 10.0]
  {
    var waw := map["Pizza" := ["Alice", "Bob"], "Soda" := ["Alice"]];
    var fpd := map["Pizza" := "20.00", "Soda" := "4.00"];
    AllocateRemove(waw, fpd, parse, {"Pizza", "Soda"}, "Pizza");
    assert {"Pizza", "Soda"} - {"Pizza"} == {"Soda"};
    AllocateRemove(waw, fpd, parse, {"Soda"}, "Soda");
    assert {"Soda"} - {"Soda"} == {};
    var soda := Allocate(waw, fpd, parse, {"Soda"});
    assert soda == AddEach(map[], ["Alice"], 4.0) by {
      assert ["Alice"][..0] == [];
    }
    assert soda == map["Alice" := 4.0];
    assert ["Alice", "Bob"][..1] == ["Alice"];
    assert AddEach(soda, ["Alice"], 10.0) == map["Alice" := 14.0] by {
      assert ["Alice"][..0] == [];
    }
    assert AddEach(soda, ["Alice", "Bob"], 10.0) == map["Alice" := 14.0, "Bob" := 10.0];
    assert Price(fpd, parse, "Pizza").value / (|waw["Pizza"]| as real) == 10.0;
  }
}
