# FairShare bill splitter, modelled in Dafny

FairShare is a small SwiftUI app that splits a restaurant bill. Four screens
are pushed one after another on a navigation stack: `ContentView`, `FoodView`,
`WhoAteWhat` and `CostPerPersonView`. Each screen owns some `@State`, and some
of it is handed on to later screens through `@Binding`:

- `ContentView` owns the list of participant `names`. It is bound into
  `FoodView` and `WhoAteWhat`.
- `FoodView` owns `foods` and `prices`, two parallel lists with one row per
  item, and `food_price_dict`, which maps food names to price text. All three
  are bound into `WhoAteWhat`, and `food_price_dict` is bound on into the cost
  screen.
- `WhoAteWhat` owns `selectionDict`, the consumption toggles
  (food -> person -> Bool). It is private to that screen. The screen also owns
  `waw_dict` ("who ate what"), which maps each food to the people who ate it.
  `waw_dict` is bound into the cost screen.
- `CostPerPersonView` owns `cost_per_head`, the amount each person owes. It is
  private to that screen.

A screen's own state is created afresh each time the screen is pushed, and it
is lost when the screen is popped.

The model lifts all of this state into one class, `FairShare.BillSplitter`.
Each button or text-field action becomes a method with a `modifies` frame.
That includes the three "next page" buttons, which reset the state of the
screen they push. The state invariant `Valid()` is kept by every method:

- there is at least one participant row and one item row;
- `foods` and `prices` have the same length;
- every `waw_dict` list is non-empty, so the cost split never divides by zero.

The logic behind the methods sits in these modules:

- `Selection`: the toggle table and the who-ate-what relation that
  `confirmSelections` builds. Its loops over dictionaries pick keys in an
  unspecified order. So each `waw_dict` list is specified only by its
  multiset: who is in it, and how often.
- `PriceTable`: zipping `foods` with `prices` into a dictionary. This fails
  when a food name is repeated.
- `Allocation`: the cost split. `CostPerPerson` is the loop of
  `calculateCostPerPerson`. It is proved equal to `Allocate`, a fold over the
  set of foods, whose result is proved not to depend on the order the foods are
  visited in. The properties of the split are proved about `Allocate`:
  - who is charged;
  - each person's total as a sum of per-food shares;
  - conservation of the allocated prices.
- `Sums`: sums of real-valued functions over finite sets, and the grand total
  of a `map<string, real>`.

Money is `real`, and the division is exact. Swift's `Float(String)` is not
modelled. Every operation that needs it takes a parameter
`parse: string -> Option<real>` instead.

## Model

| member | source | states |
|---|---|---|
| FairShare.BillSplitter.constructor | FairShare2/ContentView.swift:6 | the participant, item and price lists each start with one blank row, and the four dictionaries start empty (lines 90-92, 184-186, 275) |
| FairShare.BillSplitter.AddName | FairShare2/ContentView.swift:70-72 | exactly one blank name is appended and every earlier name is unchanged |
| FairShare.BillSplitter.RemoveName | FairShare2/ContentView.swift:74-78 | the last name is dropped only when there are at least two, otherwise nothing changes, so at least one row always remains |
| FairShare.BillSplitter.SetName | FairShare2/ContentView.swift:24 | typing into participant field i changes that entry only |
| FairShare.BillSplitter.AddFood | FairShare2/ContentView.swift:154-157 | one blank entry is appended to both the food and the price column, so the two stay the same length, and earlier entries are unchanged |
| FairShare.BillSplitter.RemoveFood | FairShare2/ContentView.swift:159-164 | the last row of both columns is dropped only when both have more than one row, otherwise nothing changes, so the columns stay equal in length and non-empty |
| FairShare.BillSplitter.SetFood | FairShare2/ContentView.swift:107 | typing into item name field i changes that entry only |
| FairShare.BillSplitter.SetPrice | FairShare2/ContentView.swift:112 | typing into price field i changes that entry only |
| FairShare.BillSplitter.OpenFoodScreen | FairShare2/ContentView.swift:54-65 | pushing the food screen starts its item rows and price table afresh (lines 90-92), keeping the bound participant list |
| FairShare.BillSplitter.OpenWhoAteWhat | FairShare2/ContentView.swift:137-148 | the price table is built as by `generateFoodPriceDict`, and the pushed screen starts with no toggles and no who-ate-what lists (lines 184-186); on a trap nothing changes |
| FairShare.BillSplitter.GenerateFoodPriceDict | FairShare2/ContentView.swift:168-170 | it traps exactly when two food rows have the same name, and then the table is unchanged; otherwise the table's keys are the food names and each food maps to the price on its row |
| PriceTable.ZipDict | FairShare2/ContentView.swift:169 | zipping keys with values succeeds exactly when the keys in the zipped prefix are pairwise distinct, and then holds exactly those keys, each mapped to its partner |
| PriceTable.BlankRowsTrap | FairShare2/ContentView.swift:169 | two item rows whose names are both still blank make the zip trap |
| Selection.SetSelected | FairShare2/ContentView.swift:214-222 | read through the getter, whose missing food or person reads false: after the write, the toggle reads the new value, every other (food, person) toggle reads as before, the food's row exists (it is created when it was missing) and gains only that person, and the other rows are untouched |
| FairShare.BillSplitter.SetSelectedAt | FairShare2/ContentView.swift:210-223 | the toggle for item row i and participant row j reads the new value afterwards, and no other toggle changes |
| Selection.AppendTicked | FairShare2/ContentView.swift:256-265 | the inner loop appends each ticked person of one food's row exactly once, creating the food's list when it has none, and leaves every other food's list alone |
| Selection.CollectEaters | FairShare2/ContentView.swift:255-266 | whatever the order the foods and people are visited in, every food's list ends up as its old list plus its ticked people, once each, and a list is created only for a food that somebody ticked |
| FairShare.BillSplitter.ConfirmSelections | FairShare2/ContentView.swift:251-267 | `waw_dict` becomes what appending the ticked people to the previous `waw_dict` gives, and no list in it is empty |
| FairShare.BillSplitter.Confirm | FairShare2/ContentView.swift:237-246 | "Confirm" appends the ticked people to the screen's `waw_dict`, then the pushed cost screen computes `cost_per_head` from it as it appears (lines 298-300) |
| Selection.CollectedFromEmpty | FairShare2/ContentView.swift:255-266 | when the starting `waw_dict` is empty, a person is listed under a food exactly when their toggle for it is on, and at most once |
| Selection.CollectedOnlyAppends | FairShare2/ContentView.swift:259-262 | confirming never removes a food or an entry from a list |
| Selection.CollectedKeepsListsNonEmpty | FairShare2/ContentView.swift:259-262 | every list is created with a person in it, so no list is ever empty, which is what `CostPerPerson` requires before dividing by a list's length as at line 312 |
| Selection.ReconfirmKeepsUntickedEater | FairShare2/ContentView.swift:255-266 | confirming, unticking Bob and confirming again leaves Bob listed under Pizza though unticked, and lists Alice twice |
| FairShare.BillSplitter.ConfirmSelectionsFresh | FairShare2/ContentView.swift:251-267 | the confirmation rebuilt from an empty `waw_dict` lists a person under a food exactly when they ticked it, whatever was confirmed before |
| Allocation.AddEachAt | FairShare2/ContentView.swift:313-315 | after the inner loop, every person's total has grown by the per-person cost once for each time they are listed, and nobody else's has changed |
| Allocation.AddEachKeys | FairShare2/ContentView.swift:314 | the default-zero increment adds exactly the listed people to the dictionary |
| Allocation.AddEachTotal | FairShare2/ContentView.swift:313-315 | the inner loop raises the sum of all totals by the per-person cost times the number of entries in the list |
| Allocation.EvenSplitAddsUp | FairShare2/ContentView.swift:312-315 | n shares of price / n add up to the price again |
| Allocation.TimesIsProduct | FairShare2/ContentView.swift:314 | adding an amount n times is n times the amount |
| Allocation.AddFoodAt | FairShare2/ContentView.swift:311-316 | one food raises a person's total by exactly that person's share of that food, which is zero when the food is excluded |
| Allocation.AddFoodTotal | FairShare2/ContentView.swift:311-316 | one food raises the grand total by exactly that food's price when it is allocated, and by nothing otherwise |
| Allocation.AddEachCommutes | FairShare2/ContentView.swift:313-315 | distributing two amounts over two lists gives the same totals in either order |
| Allocation.AddFoodCommutes | FairShare2/ContentView.swift:310-317 | processing two foods gives the same totals in either order |
| Allocation.AllocateRemove | FairShare2/ContentView.swift:310-317 | the totals for a set of foods are the totals for the others with any one food added last, so the dictionary's iteration order does not matter |
| Allocation.CostPerPerson | FairShare2/ContentView.swift:307-320 | given who-ate-what lists that each name somebody (as `confirmSelections` guarantees), the loop's result, built from an empty dictionary, is the order-free allocation of all foods in `waw_dict`, so it depends on its inputs only |
| FairShare.BillSplitter.CalculateCostPerPerson | FairShare2/ContentView.swift:307-320 | `cost_per_head` becomes the allocation of `waw_dict` with the current price table, and nothing else changes |
| Allocation.AllocateKeys | FairShare2/ContentView.swift:308-316 | a person has an entry in the result exactly when some food that has eaters and a parsable price lists them; anyone else is absent, not present with zero |
| Allocation.AllocateAt | FairShare2/ContentView.swift:308-319 | each person's total is the sum over the foods of (times they are listed) * price / (number of eaters) |
| Allocation.AllocateTotal | FairShare2/ContentView.swift:308-319 | the totals add up to the sum of the prices of the allocated foods (conservation) |
| Allocation.ExcludedFoodIgnored | FairShare2/ContentView.swift:311 | a food with no price entry (the lookup reads nothing), an unparsable price or no eaters changes nobody's total |
| Allocation.SoleFoodShare | FairShare2/ContentView.swift:310-316 | with a single food, each person's total is their share of it |
| Allocation.PizzaAndSoda | FairShare2/ContentView.swift:307-320 | Alice and Bob share a 20.00 pizza and Alice has a 4.00 soda, so Alice owes 14 and Bob owes 10, and nobody else is listed |
| FairShare.ChargedIffTicked | FairShare2/ContentView.swift:255-316 | after a confirmation from empty, a person owes something exactly when they ticked some food whose price parses |
| FairShare.UntickedEaterCharged | FairShare2/ContentView.swift:255-316 | a 30.00 pizza is confirmed, Bob unticks it and it is confirmed again; Bob is still charged 10 for it |
| FairShare.ThirdOfThePizza | FairShare2/ContentView.swift:310-316 | Bob, listed once among the three entries of a 30.00 pizza, is charged 10 |
| Sums.SumOverRemove | FairShare2/ContentView.swift:310 | a sum over a set of foods is any one food's term plus the sum over the rest, so summing in dictionary order is well defined |
| Sums.TotalUpdate | FairShare2/ContentView.swift:314 | overwriting one person's total changes the grand total by the difference |

## Left out

- Views and the `navigateTo*` flags are left out. `BillSplitter` holds the state of all four screens, and its methods are their actions.
- Which screen is on the navigation stack is not tracked. The "next page" methods reset the pushed screen's state, but going back (popping a screen) is not a method. So the model also allows call sequences the app cannot produce, such as `SetFood` between two `ConfirmSelections` calls with no `OpenWhoAteWhat` in between. In the app, `waw_dict` accumulates only while the `WhoAteWhat` screen stays on the stack.
- Names and food names are compared by Unicode code point. Swift's `String` equality and hashing use canonical equivalence. So `"café"` with a precomposed `é` and `"cafe"` followed by a combining accent are two keys in the model, but one key in the app. For such names the app's `Dictionary(uniqueKeysWithValues:)` traps where the model does not, and two such participants share one toggle in the app.
- Presenting a price with `%.2f` and `Float` rounding are left out. Money is an exact `real`.
- The parsing of `Float(priceString)` is left out. It is the parameter `parse`, which can be any partial function from text to a real.
- Swift's dictionary iteration order is not modelled. Loops pick keys from the key set with `:|`. A `waw_dict` list is specified only by its multiset of names, never by its order.
- FairShare.BillSplitter.GenerateFoodPriceDict: `Dictionary(uniqueKeysWithValues:)` stops the program on a repeated food name. The model instead returns `trapped` and leaves the state unchanged, because a program crash cannot be expressed as a state.
- Allocation.CostPerPerson requires every who-ate-what list to be non-empty. `BillSplitter.Valid()` keeps this, and `confirmSelections` never creates an empty list. Without it, Swift's `price / Float(people.count)` is a non-finite `Float` that is never added to anyone, whereas an exact real division by zero is undefined.
- FairShare.BillSplitter.IsSelectedAt and Selection.IsSelected have no contract of their own. They are the getter at line 214, read through row indexes or by name, and are plain definitions. What the getter reads after a write is stated by `Selection.SetSelected`.
- The commented-out preview provider is left out.

## Findings

| source | as written | input that shows it | evidently intended | confidence | as-written member | corrected member |
|---|---|---|---|---|---|---|
| FairShare2/ContentView.swift:251-267 | `confirmSelections` appends the ticked people to `waw_dict`, which is `@State` of the still-open `WhoAteWhat` screen (line 184) and keeps the lists from any earlier confirmation | Alice and Bob tick a 30.00 Pizza and confirm. They go back, Bob unticks Pizza, and they confirm again. Pizza's list is then Alice, Bob, Alice, so Bob still pays 10.00 and Alice pays 20.00 | rebuild `waw_dict` from empty on each confirmation, so that a person is listed under a food exactly when ticked, once | medium, not executed | FairShare.BillSplitter.ConfirmSelections, Selection.ReconfirmKeepsUntickedEater, FairShare.UntickedEaterCharged | FairShare.BillSplitter.ConfirmSelectionsFresh, Selection.CollectedFromEmpty, FairShare.ChargedIffTicked |
