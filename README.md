# alere2 core in Dafny

This project models the in-memory data logic of the alere2 personal-finance
suite: the `alere_lib` library, the `rust_intervals` crate and the table
renderer of the terminal front end.  One Dafny module stands for each source
file, and the properties the code promises are proved about that module.

- `intervals.dfy` (`Intervals`): integer intervals built from two bounds.
  - Bounds are `LeftOf`, `RightOf` and the two unbounded ends, compared with
    the integer "nothing between" rule, so `RightOf(3) == LeftOf(4)`.
  - It covers emptiness, containment, equivalence, the left/right
    predicates, convex hull, intersection, difference, symmetric difference,
    `between`, contiguity and union.
  - Every operation is proved against a reference meaning: the set of
    integers the interval holds.
  - `alere_lib` and `rust_intervals` share the same algebra, so both are
    modelled by this one module.
- `multi_values.dfy` (`MultiValues`): amounts that mix commodities.
  - It keeps the normalization invariant through construction, add, sub,
    neg, `+=`, `-=`, stock splits, `apply` and division.
  - Each operation is specified by the amount it gives in each commodity.
- `prices.dfy` (`Prices`): historical prices, kept sorted by timestamp
  through a binary-search insertion.
- `market_prices.dfy` (`MarketPrices`): the latest price at or before a
  time.
  - It looks up the direct and the inverted reverse rate, tries routes
    through turnkey currencies, and converts values.
  - A cache of the last search per pair narrows later searches; it is
    proved to give the same answer as a fresh search.
- `formatters.dfy` (`Formatters`): rendering an amount as text.
  - This covers thousands separators, the zero-padded fraction, the styles
    for negative amounts, symbol placement and quoting.
- `tables.dfy` (`Tables`): terminal tables.
  - This covers truncation, ideal and final column widths, header,
    separator and footer rows, and the layout of every rendered line.
- `trees.dfy` (`Trees`) and `tree_keys.dfy` (`TreeKeys`): a generic tree
  and the order of its keys.
  - The tree supports path insertion, recursive sort, retain, traversal and
    fold.
  - The keys are accounts, institutions and account kinds, under one total
    order.
- `accounts.dfy`, `account_kinds.dfy` and `commodities.dfy`: collections
  that hand out 1-based ids.
  - Accounts have full names that follow the parent chain.
  - Account kinds come with a default set of fifteen.
  - Commodity ids are unique, and the collection keeps a list of its
    currencies.
- `kmymoney.dfy` (`KmyMoney`): the pure helpers of the KMyMoney importer,
  `parse_price` and the choice of an account kind.
- `networth.dfy` (`Networth`): the networth view.
  - It accumulates balances into account rows, parent rows and a total.
  - The rows are then filtered and sorted by full name.
- `utils.dfy` (`Utils`): `is_all_same`.
- `text.dfy` (`Text`) and `wrappers.dfy` (`Wrappers`): the string
  operations of the standard library that the code relies on, and the
  shared `Option`, `Result` and `Ordering` types.

Code that changes state step by step is modelled by classes or methods with
loops.  Those methods are proved against the specification functions next
to them:

- `PriceCollection`, `MarketPrices` and `Table`;
- `Tree`, `AccountCollection`, `AccountKindCollection` and
  `CommodityCollection`;
- `NetworthView`;
- the formatting and width-computation loops.

Pure code is modelled by functions and lemmas.

## Model

| member | source | states |
|---|---|---|
| Intervals.Cmp | alere_lib/src/intervals.rs:886-930 | `partial_cmp` on integer bounds is `Less`/`Equal` exactly when the bound's position (`LeftOf x` at x, `RightOf x` at x+1, the unbounded ends at minus/plus infinity) is smaller/the same, so `RightOf(3)` equals `LeftOf(4)` |
| Intervals.BoundEqIsCmpEqual | alere_lib/src/intervals.rs:847-878 | the separately written `PartialEq` on bounds agrees with `partial_cmp == Equal` and with equal positions |
| Intervals.Min | alere_lib/src/intervals.rs:797-803 | `min` returns one of its operands, at a position no greater than either |
| Intervals.Max | alere_lib/src/intervals.rs:805-811 | `max` returns one of its operands, at a position no smaller than either |
| Intervals.BoundSidesMatchKey | alere_lib/src/intervals.rs:774-794 | `Bound::left_of(v)` holds iff the bound is at or below v, `right_of(v)` iff it is above v |
| Intervals.BoundLeftOf | alere_lib/src/intervals.rs:775-783 | `Bound::left_of(v)`: v lies to the right of the bound (the meaning is stated by `Intervals.BoundSidesMatchKey`) |
| Intervals.BoundRightOf | alere_lib/src/intervals.rs:785-793 | `Bound::right_of(v)`: v lies to the left of the bound (stated by `Intervals.BoundSidesMatchKey`) |
| Intervals.BoundEq | alere_lib/src/intervals.rs:847-878 | `PartialEq` on bounds: equal variants and values, or a `RightOf`/`LeftOf` pair with nothing between (agreement with `partial_cmp` is `Intervals.BoundEqIsCmpEqual`) |
| Intervals.NothingBetween | alere_lib/src/intervals.rs:689-693 | `nothing_between` for integers: no integer lies strictly between a and b when `b - a <= 1` |
| Intervals.BoundValue | alere_lib/src/intervals.rs:829-834 | `value` is None exactly for the two unbounded bounds |
| Intervals.NewClosedOpen | alere_lib/src/intervals.rs:76-82 | `[lo,hi)` contains exactly the v with lo <= v < hi |
| Intervals.NewClosedClosed | alere_lib/src/intervals.rs:84-90 | `[lo,hi]` contains exactly lo <= v <= hi |
| Intervals.NewOpenOpen | alere_lib/src/intervals.rs:92-98 | `(lo,hi)` contains exactly lo < v < hi |
| Intervals.NewOpenClosed | alere_lib/src/intervals.rs:100-106 | `(lo,hi]` contains exactly lo < v <= hi |
| Intervals.NewUnboundedClosed | alere_lib/src/intervals.rs:108-114 | `(,hi]` contains exactly v <= hi |
| Intervals.NewUnboundedOpen | alere_lib/src/intervals.rs:116-122 | `(,hi)` contains exactly v < hi |
| Intervals.NewClosedUnbounded | alere_lib/src/intervals.rs:124-130 | `[lo,)` contains exactly lo <= v |
| Intervals.NewOpenUnbounded | alere_lib/src/intervals.rs:132-138 | `(lo,)` contains exactly lo < v |
| Intervals.DoublyUnbounded | alere_lib/src/intervals.rs:141-147 | contains every integer |
| Intervals.Empty | alere_lib/src/intervals.rs:150-156 | contains no integer |
| Intervals.NewSingle | alere_lib/src/intervals.rs:338-340 | `[x,x]` contains exactly x |
| Intervals.Lower | rust_intervals/src/intervals.rs:153-157 | `lower()` is None exactly when the lower bound is unbounded |
| Intervals.Upper | rust_intervals/src/intervals.rs:173-177 | `upper()` is None exactly when the upper bound is unbounded |
| Intervals.LowerInclusive | alere_lib/src/intervals.rs:165-170 | `lower_inclusive`: the lower bound is a `LeftOf`, so its value belongs to the interval when it is not empty (`Intervals.BoundKindsMeaning`) |
| Intervals.LowerUnbounded | alere_lib/src/intervals.rs:172-175 | `lower_unbounded`: the lower bound is minus infinity (`Intervals.BoundKindsMeaning`) |
| Intervals.UpperInclusive | alere_lib/src/intervals.rs:185-190 | `upper_inclusive`: the upper bound is a `RightOf`, so its value belongs to the interval when it is not empty (`Intervals.BoundKindsMeaning`) |
| Intervals.UpperUnbounded | alere_lib/src/intervals.rs:192-195 | `upper_unbounded`: the upper bound is plus infinity (`Intervals.BoundKindsMeaning`) |
| Intervals.BoundKindsMeaning | alere_lib/src/intervals.rs:159-195 | the value of an inclusive bound is in the non-empty interval and that of an exclusive one is not; an unbounded side has no value and no last element |
| Intervals.Contains | alere_lib/src/intervals.rs:208-211 | v is contained iff the lower bound is at or below v and the upper bound above v |
| Intervals.IsEmpty | alere_lib/src/intervals.rs:247-253 | `is_empty` iff the upper bound is not above the lower bound |
| Intervals.IsEmptyIffNoElement | alere_lib/src/intervals.rs:247-253 | `is_empty` holds exactly when no integer is contained |
| Intervals.ContainsInterval | alere_lib/src/intervals.rs:214-217 | `contains_interval`: the other interval is empty or lies within both bounds; this is inclusion of the integers held (`Intervals.ContainsIntervalIsInclusion`) |
| Intervals.Equivalent | alere_lib/src/intervals.rs:256-264 | `equivalent`: both empty, or the same bounds up to `nothing_between`; this is holding the same integers (`Intervals.EquivalentIsSameElements`) |
| Intervals.StrictlyLeftOf | rust_intervals/src/intervals.rs:263-270 | `strictly_left_of(x)`: empty, or every element is below x (`Intervals.StrictlyLeftOfMeaning`) |
| Intervals.LeftOfValue | rust_intervals/src/intervals.rs:273-276 | `left_of(x)`: empty, or every element is at most x (`Intervals.LeftOfValueMeaning`) |
| Intervals.StrictlyRightOf | rust_intervals/src/intervals.rs:289-296 | `strictly_right_of(x)`: empty, or every element is above x (`Intervals.StrictlyRightOfMeaning`) |
| Intervals.RightOfValue | rust_intervals/src/intervals.rs:299-302 | `right_of(x)`: empty, or every element is at least x (`Intervals.RightOfValueMeaning`) |
| Intervals.StrictlyLeftOfInterval | rust_intervals/src/intervals.rs:279-286 | `strictly_left_of_interval`: either is empty, or every element of the first is below every element of the second (`Intervals.StrictlyLeftOfIntervalMeaning`) |
| Intervals.IsSingle | rust_intervals/src/intervals.rs:312-317 | `is_single`: the `[A,A]` shape, holding A alone (`Intervals.IsSingleMeaning`) |
| Intervals.ContainsIntervalIsInclusion | alere_lib/src/intervals.rs:214-217 | `contains_interval` is inclusion of the sets of contained integers |
| Intervals.EmptyContainment | alere_lib/src/intervals.rs:214-217 | every interval contains the empty one; the empty one contains only empty intervals |
| Intervals.EquivalentIsSameElements | alere_lib/src/intervals.rs:256-264 | `equivalent` holds iff both intervals contain the same integers |
| Intervals.StrictlyLeftOfMeaning | rust_intervals/src/intervals.rs:263-270 | `strictly_left_of(x)` iff every element is below x (so true when empty) |
| Intervals.LeftOfValueMeaning | rust_intervals/src/intervals.rs:273-276 | `left_of(x)` iff every element is at most x |
| Intervals.StrictlyRightOfMeaning | rust_intervals/src/intervals.rs:289-296 | `strictly_right_of(x)` iff every element is above x |
| Intervals.RightOfValueMeaning | rust_intervals/src/intervals.rs:299-302 | `right_of(x)` iff every element is at least x |
| Intervals.StrictlyLeftOfIntervalMeaning | rust_intervals/src/intervals.rs:279-286 | `strictly_left_of_interval` iff either is empty or every element of the left one is below every element of the right one |
| Intervals.IsSingleMeaning | rust_intervals/src/intervals.rs:312-317 | `is_single` iff the shape is `[A,A]`, which then contains exactly A |
| Intervals.NewFromTwo | alere_lib/src/intervals.rs:751-759 | `new_from_two` never builds `Two` with an empty member |
| Intervals.NewFromTwoMeaning | alere_lib/src/intervals.rs:751-759 | the result holds exactly the union of the two operands |
| Intervals.ConvexHull | alere_lib/src/intervals.rs:346-357 | `convex_hull`: the smallest interval holding both operands (`Intervals.ConvexHullMeaning`, `Intervals.ConvexHullIsSmallest`) |
| Intervals.Difference | alere_lib/src/intervals.rs:360-376 | `difference`: the elements of the first operand not in the second, in at most two ordered pieces (`Intervals.DifferenceMeaning`, `Intervals.DifferenceOrdered`) |
| Intervals.SymmetricDifference | alere_lib/src/intervals.rs:379-401 | `symmetric_difference`: the elements in exactly one operand (`Intervals.SymmetricDifferenceMeaning`) |
| Intervals.Intersects | rust_intervals/src/intervals.rs:395-401 | `intersects`: the operands share an element (`Intervals.IntersectsMeaning`) |
| Intervals.Intersection | rust_intervals/src/intervals.rs:404-413 | `intersection`: the elements in both operands (`Intervals.IntersectionMeaning`) |
| Intervals.Between | rust_intervals/src/intervals.rs:416-426 | `between`: the elements strictly between two disjoint operands (`Intervals.BetweenMeaning`) |
| Intervals.Contiguous | alere_lib/src/intervals.rs:438-445 | `contiguous`: the union of the operands has no gap (`Intervals.ContiguousMeaning`) |
| Intervals.Union | alere_lib/src/intervals.rs:448-455 | `union`: the convex hull when the operands are contiguous, otherwise none (`Intervals.UnionMeaning`) |
| Intervals.ConvexHullMeaning | alere_lib/src/intervals.rs:346-357 | an empty operand yields the other; the hull contains both; otherwise its bounds are the min lower and max upper |
| Intervals.ConvexHullIsSmallest | alere_lib/src/intervals.rs:346-357 | any interval containing both non-empty operands contains their hull |
| Intervals.DifferenceMeaning | alere_lib/src/intervals.rs:360-376 | `difference` holds exactly the elements of the left operand not in the right; an empty right operand gives `One(self)` |
| Intervals.DifferenceOrdered | alere_lib/src/intervals.rs:360-376 | when the difference has two parts, the first lies wholly left of the second |
| Intervals.SymmetricDifferenceMeaning | alere_lib/src/intervals.rs:379-401 | `symmetric_difference` holds exactly the elements in one operand but not both |
| Intervals.SymmetricDifferenceOrdered | alere_lib/src/intervals.rs:379-401 | when the symmetric difference has two parts, the first lies wholly left of the second, as a `MultiInterval` with two members is ordered |
| Intervals.IntersectionMeaning | rust_intervals/src/intervals.rs:404-413 | `intersection` (max of lowers, min of uppers) holds exactly the common elements |
| Intervals.IntersectsMeaning | rust_intervals/src/intervals.rs:395-401 | `intersects` is false when either is empty, and equals "some element is in both" and "the intersection is non-empty" |
| Intervals.BetweenMeaning | rust_intervals/src/intervals.rs:416-426 | `between` is empty if either is empty; otherwise it holds the elements strictly between the two operands |
| Intervals.ContiguousMeaning | alere_lib/src/intervals.rs:438-445 | `contiguous` is true when either is empty, otherwise iff no integer lies in the gap between them |
| Intervals.UnionMeaning | alere_lib/src/intervals.rs:448-455 | `union` is `Some(convex_hull)` exactly when the operands are contiguous, and then holds exactly the elements of both |
| Intervals.BoundOrderExample | alere_lib/src/intervals.rs:1276-1285 | `LeftOf(3) < RightOf(3)` and `RightOf(3) == LeftOf(4)` |
| Intervals.ContainsExample | alere_lib/src/intervals.rs:987-1071 | `[1,10)` contains 1 and 9, not 10 or 11; the containment facts of the test |
| Intervals.EmptyExample | rust_intervals/src/intervals.rs:813-919 | `empty()`, `[1,1)`, `(1,1)`, `(0,1)`, `(2,1)` and `(1,1]` are empty, `[1,1]` is not |
| Intervals.InclusiveExample | alere_lib/src/intervals.rs:1074-1122 | `lower`/`upper`/`*_inclusive` on the test's intervals |
| Intervals.SingleExample | rust_intervals/src/intervals.rs:922-940 | `[4,4]` and `[1,1]` are single; `[1,4)` and `(0,2)` are not |
| Intervals.EquivalentExample | alere_lib/src/intervals.rs:1205-1244 | `[1,4) ≡ [1,3] ≡ (0,3] ≡ (0,4)`, none of them ≡ `[1,4]` |
| Intervals.LeftOfExample | rust_intervals/src/intervals.rs:1042-1098 | the left-of/right-of results of the test, including true for the empty interval |
| Intervals.ConvexHullExample | alere_lib/src/intervals.rs:1351-1387 | hulls from the test |
| Intervals.DifferenceExample | alere_lib/src/intervals.rs:1390-1431 | differences from the test, including the two-part result |
| Intervals.SymmetricDifferenceExample | alere_lib/src/intervals.rs:1493-1558 | symmetric differences from the test |
| Intervals.IntersectionExample | rust_intervals/src/intervals.rs:1259-1281 | `[10,30] & [40,50)` is empty; `[40,50) & (35,)` is `[40,50)` |
| Intervals.BetweenExample | rust_intervals/src/intervals.rs:1240-1256 | between `[10,30]` and `[40,50]` is `(30,40)`; contiguity of the same pairs |
| MultiValues.ValueZero | alere_lib/src/multi_values.rs:85-90 | `Value::zero` is a zero amount of the given commodity |
| MultiValues.ValueAbs | alere_lib/src/multi_values.rs:92-97 | `abs` keeps the commodity and gives the non-negative amount of the same magnitude |
| MultiValues.ValueDiv | alere_lib/src/multi_values.rs:104-112 | `Value / d` keeps the commodity; the amount times d is the original amount (d non-zero, else the code panics) |
| MultiValues.New | alere_lib/src/multi_values.rs:141-150 | `new` is normalized, is `Zero` iff the amount is zero, and holds the amount for that commodity only |
| MultiValues.NewZeroIsZero | alere_lib/src/multi_values.rs:141-150 | `new(0, c)` equals `zero()` |
| MultiValues.IsZeroMeaning | alere_lib/src/multi_values.rs:153-156 | on a normalized value `is_zero` holds iff every amount is zero |
| MultiValues.CommodityOf | alere_lib/src/multi_values.rs:158-164 | `commodity` of a single-commodity value names the commodity with the non-zero amount |
| MultiValues.CommodityOfMeaning | alere_lib/src/multi_values.rs:158-164 | on a normalized value `commodity` is None iff it is zero or holds two or more commodities |
| MultiValues.SplitBy | alere_lib/src/multi_values.rs:167-185 | `split(c, r)` multiplies only the amount of `c` by `r`; `Zero` stays `Zero` |
| MultiValues.Normalize | alere_lib/src/multi_values.rs:202-225 | `normalize` yields a normalized value with the same amount of every commodity |
| MultiValues.NormalizeKeepsNormalized | alere_lib/src/multi_values.rs:202-235 | normalizing a normalized value changes nothing |
| MultiValues.Extensionality | alere_lib/src/multi_values.rs:227-235 | two normalized values with the same amounts are the same value, so the normal form is unique |
| MultiValues.Apply | alere_lib/src/multi_values.rs:237-257 | `apply` keeps the value normalized; `Dividend` changes nothing; the other quantity operations add their quantity; a split multiplies the one commodity |
| MultiValues.DivValue | alere_lib/src/multi_values.rs:286-298 | dividing by zero gives None; a zero dividend gives `Some(0)`; One/One gives the ratio of the amounts; a multi-commodity operand gives None |
| MultiValues.DivScalar | alere_lib/src/multi_values.rs:304-318 | `MultiValue / d` divides every amount by d and stays normalized |
| MultiValues.Add | alere_lib/src/multi_values.rs:352-412 | `+` of normalized values is normalized and adds the amounts commodity by commodity |
| MultiValues.AddCommutes | alere_lib/src/multi_values.rs:352-412 | `x + y == y + x` |
| MultiValues.AddAssociates | alere_lib/src/multi_values.rs:352-412 | `(x + y) + z == x + (y + z)` |
| MultiValues.Merge | alere_lib/src/multi_values.rs:465-512 | the map merge of `+=`/`-=` keeps the keys of both sides, with the sum, the difference, or the inserted right amount |
| MultiValues.MergeInto | alere_lib/src/multi_values.rs:497-504 | the loop over the right map produces exactly that merge |
| MultiValues.AddAssign | alere_lib/src/multi_values.rs:465-512 | `x += y` leaves `x + y` |
| MultiValues.Neg | alere_lib/src/multi_values.rs:526-543 | unary `-` negates every amount and keeps a value normalized |
| MultiValues.NegInvolution | alere_lib/src/multi_values.rs:526-543 | `-(-x) == x` |
| MultiValues.AddNegIsZero | alere_lib/src/multi_values.rs:526-543 | `x + (-x)` is zero |
| MultiValues.AddSelfDoubles | alere_lib/src/multi_values.rs:730-732 | `x + x` doubles a single-commodity value |
| MultiValues.SubAsWritten | alere_lib/src/multi_values.rs:580-636 | `-` as written: amounts subtract, except that a commodity present only on the right is inserted with its own sign |
| MultiValues.Sub | alere_lib/src/multi_values.rs:580-636 | corrected `-`: every amount is the left amount minus the right amount, and the result stays normalized |
| MultiValues.SubIsAddNeg | alere_lib/src/multi_values.rs:580-636 | the corrected `x - y` equals `x + (-y)`, so `x - x` is zero |
| MultiValues.SubAsWrittenSelfIsZero | alere_lib/src/multi_values.rs:580-636 | even as written, `x - x` is zero |
| MultiValues.SubAsWrittenAgreesWhenCovered | alere_lib/src/multi_values.rs:580-636 | as written, `-` is right whenever the left operand already holds every commodity of the right one |
| MultiValues.SubAsWrittenKeepsSign | alere_lib/src/multi_values.rs:611-630 | `{1: 1, 2: 1} - 1 of commodity 3` holds +1 of commodity 3 as written and -1 once corrected |
| MultiValues.SubAssignAsWritten | alere_lib/src/multi_values.rs:656-705 | `-=` as written computes `SubAsWritten` |
| MultiValues.SubAssign | alere_lib/src/multi_values.rs:656-705 | corrected `-=` computes `Sub` |
| MultiValues.OperatorsExample | alere_lib/src/multi_values.rs:745-754 | the `+=`/`-=` sequence of the unit test, with `-=` as written: zero plus 1 c1 is 1 c1; adding 1 c2 is non-zero; taking away 1 c1 leaves 1 c2; taking away 1 c2 leaves zero |
| Prices.OlderThan | alere_lib/src/prices.rs:56-58 | `older_than` is `Less`/`Equal` exactly when the first timestamp is earlier/the same |
| Prices.OlderThanTs | alere_lib/src/prices.rs:60-62 | `older_than_ts` compares the price's timestamp with a time |
| Prices.MoreRecentThanTs | alere_lib/src/prices.rs:64-69 | `more_recent_than_ts` is `Less` exactly when the price is later than the time |
| Prices.OrderingsAgree | alere_lib/src/prices.rs:56-69 | `more_recent_than_ts` is the reverse of `older_than_ts`; `older_than` looks at timestamps only and is antisymmetric |
| Prices.Invert | alere_lib/src/prices.rs:72-78 | `invert` keeps timestamp and source, and the new price times the old one is 1 |
| Prices.InvertInvolutive | alere_lib/src/prices.rs:72-78 | inverting twice gives back the price |
| Prices.InsertionPoint | alere_lib/src/prices.rs:25-27 | the binary search returns a position with no later price before it and no earlier price after it |
| Prices.InsertKeepsSorted | alere_lib/src/prices.rs:25-28 | inserting at such a position keeps the list chronological and adds exactly the new price |
| Prices.PriceCollection.PricesOf | alere_lib/src/prices.rs:21-24 | the list of a pair, empty for a pair never seen, is always chronological |
| Prices.PriceCollection.Add | alere_lib/src/prices.rs:15-29 | `add` keeps every list chronological and inserts the new price at some position of the pair's list, the old prices keeping their relative order, as `Vec::insert` does; every other pair is unchanged |
| Prices.PriceCollection.constructor | alere_lib/src/prices.rs:7-10 | no prices for any pair |
| Prices.AddExample | alere_lib/src/prices.rs:15-29 | adding a later then an earlier price for the same pair leaves them sorted oldest first |
| MarketPrices.CountAtOrBefore | alere_lib/src/market_prices.rs:171-226 | the number of prices not after `t` (what the split search of `bisect` finds) is at most the list length |
| MarketPrices.SplitIsCount | alere_lib/src/market_prices.rs:171-226 | any index separating the prices up to `t` from the later ones is that count |
| MarketPrices.SortedSplits | alere_lib/src/market_prices.rs:171-226 | on a chronological list the count separates the prices up to `t` from the later ones |
| MarketPrices.Latest | alere_lib/src/market_prices.rs:171-226 | the price found is one of the pair's prices |
| MarketPrices.LatestMeaning | alere_lib/src/market_prices.rs:171-226 | the lookup is None exactly when every price is later than `t`; otherwise it is not after `t` and no price up to `t` is newer |
| MarketPrices.KeepMostRecent | alere_lib/src/market_prices.rs:241-250 | `keep_most_recent` fills None and replaces an existing price only with a strictly newer one |
| MarketPrices.KeepMostRecentIsNewest | alere_lib/src/market_prices.rs:241-250 | the kept price has the larger of the two timestamps |
| MarketPrices.NoTurnkeyMeaning | alere_lib/src/market_prices.rs:122-133 | the direct rate and the inverted reverse rate: the newer one wins, a tie keeps the direct one, None when both are missing |
| MarketPrices.NoTurnkey | alere_lib/src/market_prices.rs:122-133 | `get_price_no_turnkey` as a function of the known prices: the newer of the direct rate and the inverted reverse rate (`MarketPrices.NoTurnkeyMeaning`) |
| MarketPrices.ViaTurnkeys | alere_lib/src/market_prices.rs:90-114 | the turnkey loop of `get_price` as a function: a route through a turnkey replaces the best price when it is more recent (`MarketPrices.TurnkeyRoute`, `MarketPrices.ViaTurnkeysNotOlder`) |
| MarketPrices.TurnkeyRoute | alere_lib/src/market_prices.rs:90-114 | with no direct rate, a turnkey route multiplies the two legs' prices and takes the older of their timestamps |
| MarketPrices.ViaTurnkeysNotOlder | alere_lib/src/market_prices.rs:86-116 | when there is a direct rate, trying the turnkeys also finds a rate, and one that is not older |
| MarketPrices.PriceSpec | alere_lib/src/market_prices.rs:78-118 | `get_price` is None without a target commodity and exactly 1 for the target itself |
| MarketPrices.ConvertedMeaning | alere_lib/src/market_prices.rs:60-72 | `convert_value` without a price keeps amount and commodity; with price p it is p times the amount in the target commodity |
| MarketPrices.Converted | alere_lib/src/market_prices.rs:60-72 | `convert_value` as a function: the amount times the price, in the target commodity, or the value unchanged without a price (`MarketPrices.ConvertedMeaning`) |
| MarketPrices.ConvertedSum | alere_lib/src/market_prices.rs:42-57 | the sum of the converted components is normalized |
| MarketPrices.ConvertedSumWithoutTarget | alere_lib/src/market_prices.rs:42-57 | without a target commodity every amount of the sum is the original amount of that commodity |
| MarketPrices.ConvertedSumIdentity | alere_lib/src/market_prices.rs:42-57 | without a target commodity `convert_multi_value` returns the value itself |
| MarketPrices.BisectRight | alere_lib/src/market_prices.rs:171-226 | the binary search returns the number of prices not after `t` |
| MarketPrices.NarrowedSearch | alere_lib/src/market_prices.rs:185-207 | a search narrowed by an earlier cache line (after it when `t` is later, before it otherwise) lands on the same count as a full search |
| MarketPrices.MarketPrices.constructor | alere_lib/src/market_prices.rs:25-35 | a new object has an empty cache over the given prices, turnkeys and target |
| MarketPrices.MarketPrices.Bisect | alere_lib/src/market_prices.rs:171-233 | `bisect`, narrowed or not, yields the cache line of a fresh full search |
| MarketPrices.MarketPrices.LookupPrice | alere_lib/src/market_prices.rs:136-166 | a cached lookup returns the latest price not after `t`, the same as a fresh search, and records that search's line for the pair |
| MarketPrices.MarketPrices.GetPriceNoTurnkey | alere_lib/src/market_prices.rs:122-133 | computes the direct-or-inverted-reverse rate and keeps the cache valid |
| MarketPrices.MarketPrices.TryTurnkey | alere_lib/src/market_prices.rs:93-113 | one turn of the turnkey loop: the route through that turnkey, kept when newer |
| MarketPrices.MarketPrices.GetPrice | alere_lib/src/market_prices.rs:78-118 | computes the specified price: none, one, or the newest route over the direct rates and every turnkey other than the target |
| MarketPrices.MarketPrices.ConvertValue | alere_lib/src/market_prices.rs:60-72 | computes `convert_value` as specified |
| MarketPrices.MarketPrices.ConvertMultiValue | alere_lib/src/market_prices.rs:42-57 | accumulates the converted components in the visiting order |
| MarketPrices.OnePriceExample | alere_lib/src/market_prices.rs:278-309 | with one price of 0.2 on day 1: None before it, 0.2 from then on, 5 in the other direction |
| MarketPrices.ReverseRateBeforeExample | alere_lib/src/market_prices.rs:311-330 | with a reverse rate of 4 two days later, None before day 1 and 0.2 between the two |
| MarketPrices.ReverseRateExample | alere_lib/src/market_prices.rs:330-340 | from the reverse rate's day on, the price is 0.25 |
| MarketPrices.TurnkeyExample | alere_lib/src/market_prices.rs:359-383 | through the turnkey, 0.7 / 0.8 one way and 0.8 / 0.7 the other way |
| MarketPrices.SinglePrice | alere_lib/src/market_prices.rs:278-300 | with one price at time 1, the search finds nothing before it and that price at any later time |
| MarketPrices.CachedLookupExample | alere_lib/src/market_prices.rs:278-300 | with one price stored, a lookup before it finds nothing, one after it finds it, and repeating that lookup through the cache gives the same price |
| Formatters.Default | alere_lib/src/formatters.rs:58-68 | `Formatter::default`: unquoted symbol, no hidden symbol, minus sign for negatives, ',' every three digits, '.' as decimal comma, nothing shown for zero, no negation |
| Formatters.GroupedIsThousands | alere_lib/src/formatters.rs:92-97 | the digit loop (a separator before index `idx > 0` when `(decimal - idx) % 3 == 0`) computes the reference grouping: a separator before each group of three counted from the right, never a leading one |
| Formatters.GroupedPrefixCongruent | alere_lib/src/formatters.rs:92-97 | the loop's output so far depends only on the characters read and the digit count modulo 3 |
| Formatters.GroupedPrefixShort | alere_lib/src/formatters.rs:92-97 | within the last three digits no separator is emitted |
| Formatters.UngroupGrouped | alere_lib/src/formatters.rs:92-97 | removing the separators from the grouped digits gives the digits back (the grouping is lossless) |
| Formatters.ThousandsFirst | alere_lib/src/formatters.rs:92-97 | the grouped text starts with the first digit, never with a separator |
| Formatters.ThousandsGrouped | alere_lib/src/formatters.rs:92-97 | reference grouping: a separator before each group of three counted from the right; the loop emits it (`Formatters.GroupedIsThousands`) and removing the separators gives the digits back (`Formatters.UngroupGrouped`) |
| Formatters.GroupedAfterSign | alere_lib/src/formatters.rs:92-97 | grouping a '-' followed by digits puts a separator right after the sign exactly when the number of digits is a multiple of 3 |
| Formatters.DotIndex | alere_lib/src/formatters.rs:89-90 | the position of the '.' is within the text |
| Formatters.DotIndexMeaning | alere_lib/src/formatters.rs:89-90 | it is the first '.', or the length when there is none |
| Formatters.DotIndexAt | alere_lib/src/formatters.rs:89-90 | and the only position with that property |
| Formatters.Zeros | alere_lib/src/formatters.rs:106-108 | `n` zero characters |
| Formatters.PushGrouped | alere_lib/src/formatters.rs:92-97 | the grouping loop appends exactly the grouped digits |
| Formatters.PushDigits | alere_lib/src/formatters.rs:102-105 | the loop after the '.' appends exactly the fraction digits |
| Formatters.PushZeros | alere_lib/src/formatters.rs:106-108 | `for _ in count+1..=precision` appends `precision - count` zeros, none when the fraction is already long enough |
| Formatters.PushFraction | alere_lib/src/formatters.rs:99-109 | at a positive precision appends the comma, the fraction digits and the padding zeros; nothing at precision 0 |
| Formatters.FractionPadded | alere_lib/src/formatters.rs:99-109 | at a positive precision the fraction has max(precision, digits) digits: the given ones, then zeros |
| Formatters.PushGroupedNumber | alere_lib/src/formatters.rs:87-110 | the `Every3Digit` branch appends the grouped integer digits, then the fraction |
| Formatters.AbsNumTextAsWritten | alere_lib/src/formatters.rs:73-112 | the text `push_abs_num` emits: with `negate` the '-' is put in front of the digits before they are grouped; its exact shape is `Formatters.NegatedAsWritten` |
| Formatters.AbsNumText | alere_lib/src/formatters.rs:79-97 | the corrected number text, with the sign kept before the groups (the corrected half of the `negate` finding) |
| Formatters.PushAbsNumAsWritten | alere_lib/src/formatters.rs:73-112 | `push_abs_num` as written, the '-' of `negate` grouped as if it were a digit |
| Formatters.PushAbsNum | alere_lib/src/formatters.rs:73-112 | `push_abs_num` with the sign kept out of the digit groups |
| Formatters.AbsNumTextShape | alere_lib/src/formatters.rs:83-110 | for the corrected text, with separators the number is the sign, the digits grouped by threes from the right starting with the first digit, and the padded fraction, and removing the separators gives the digits back |
| Formatters.AsWrittenAgreesOtherwise | alere_lib/src/formatters.rs:79-97 | without `negate` the code as written and the corrected text agree |
| Formatters.NegatedAsWritten | alere_lib/src/formatters.rs:79-97 | with `negate`, both texts are the sign, the grouped digits and the fraction; the code as written adds a separator right after the sign exactly when the number of integer digits is a multiple of 3; without separators both agree |
| Formatters.GroupedSignedExample | alere_lib/src/formatters.rs:79-97 | grouping "-123456" yields "-,123,456", grouping "123456" yields "123,456" |
| Formatters.NegatedSeparatorAfterSign | alere_lib/src/formatters.rs:79-97 | as written, `negate` renders 123456 as "-,123,456" |
| Formatters.NegatedSignBeforeGroups | alere_lib/src/formatters.rs:79-97 | corrected, it renders "-123,456" |
| Formatters.RoundedUnits | alere_lib/src/formatters.rs:74-77 | rounding to `precision` decimals lands within half a unit, a midpoint going toward zero |
| Formatters.RoundingExamples | alere_lib/src/formatters.rs:303-310 | 0.234 and 0.235 round to 0.23, 0.245 to 0.24, 1 to 1.00 |
| Formatters.QuotingMeaning | alere_lib/src/formatters.rs:114-153 | the name or the symbol is shown; the `*IfSpecial` modes quote iff some character is not alphanumeric, the `*Always` modes always quote |
| Formatters.CommodityText | alere_lib/src/formatters.rs:114-153 | the text `push_commodity` emits: name or symbol, quoted by the `*Always` modes and, for the `*IfSpecial` modes, when some character is not alphanumeric (`Formatters.QuotingMeaning`) |
| Formatters.PushCommodity | alere_lib/src/formatters.rs:114-153 | `push_commodity` appends exactly that text |
| Formatters.DisplaySymbol | alere_lib/src/formatters.rs:155-159 | `display_symbol` is that text alone |
| Formatters.PushZero | alere_lib/src/formatters.rs:186-191 | `push_zero` appends the replacement text, nothing for `Empty` |
| Formatters.PushSymbolBefore | alere_lib/src/formatters.rs:209-236 | the symbol-first branches: `-EUR x`, `EUR -x`, `EUR (x)` or `EUR x`, where x is the text `push_abs_num` emits as written |
| Formatters.PushSymbolAfter | alere_lib/src/formatters.rs:237-255 | the symbol-last branches: `-x EUR`, `(x) EUR` or `x EUR`, where x is the text `push_abs_num` emits as written |
| Formatters.Push | alere_lib/src/formatters.rs:193-256 | `push` appends the zero text, the bare number for a hidden commodity, or the number and symbol in the configured layout; the number is `push_abs_num`'s text as written, `negate` included |
| Formatters.Display | alere_lib/src/formatters.rs:180-184 | `display` is the text `push` appends to an empty string |
| Formatters.DisplayText | alere_lib/src/formatters.rs:193-255 | the text `push` emits: the zero text for zero, the number alone for the hidden commodity, otherwise the layout for the sign and symbol position (`Formatters.ZeroShowsReplacement`, `Formatters.HiddenSymbolShowsNumber`, `Formatters.NegativeLayouts`) |
| Formatters.ZeroShowsReplacement | alere_lib/src/formatters.rs:193-197 | a zero amount shows only the zero text, nothing at all for `Empty` |
| Formatters.HiddenSymbolShowsNumber | alere_lib/src/formatters.rs:201-206 | when the commodity is `hide_symbol_if`, only the number as `push_abs_num` writes it is shown, whatever the sign and layout |
| Formatters.NegativeLayouts | alere_lib/src/formatters.rs:208-250 | the five negative layouts, by symbol position and sign style, around the number as `push_abs_num` writes it |
| Formatters.PaddedExample | alere_lib/src/formatters.rs:276-280 | "234567" at precision 2 gives "234,567.00" (no leading separator) |
| Formatters.GroupedMillion | alere_lib/src/formatters.rs:282-285 | "1234567" groups as 1,234,567 for any separator |
| Formatters.MillionExample | alere_lib/src/formatters.rs:282-285 | "1,234,567.24" |
| Formatters.SpaceSeparatorExample | alere_lib/src/formatters.rs:351-359 | with ' ' as separator and ',' as comma, "1 234 567,24" |
| Formatters.FractionFourExample | alere_lib/src/formatters.rs:290-293 | the fraction ".238" at precision 4 is padded to ".2380" |
| Formatters.PrecisionFourExample | alere_lib/src/formatters.rs:290-293 | "1,234,567.2380" |
| Formatters.NoSeparatorExamples | alere_lib/src/formatters.rs:373-386 | without separators, "1234567.24 EUR" and, with parentheses, "EUR (1234567.24)" |
| Formatters.NegatedDisplayExample | alere_lib/src/formatters.rs:193-255 | with `negate` and the default formatter, 123456 with the symbol after is shown as "-,123,456 EUR" |
| Formatters.QuotedSymbolExample | alere_lib/src/formatters.rs:312-323 | "MY SYMB" is quoted, "EUR" is not |
| Tables.NewColumn | cli/src/tables.rs:36-50 | `Column::new`: left-aligned, truncated on the right, automatic width, shown in the footer, no title, computed width 0, with the given content callback |
| Tables.TruncKeepFirst | cli/src/tables.rs:296-300 | `trunc_keep_first` keeps `min(len, width)` characters |
| Tables.TruncKeepLast | cli/src/tables.rs:290-295 | `trunc_keep_last` keeps `min(len, width)` characters; it needs a width of at least 1 (`max_width - 1` underflows otherwise) |
| Tables.TruncateText | cli/src/tables.rs:319-328 | `truncate` yields `min(len, width)` characters |
| Tables.TruncateKeeps | cli/src/tables.rs:319-328 | unchanged when it fits; otherwise `Right` keeps the first `width` characters and `Left` the last `width` |
| Tables.RuleOf | cli/src/tables.rs:301-303 | `push_sep` emits exactly `width` characters |
| Tables.RepeatOnly | cli/src/tables.rs:301-303 | all of them the rule character |
| Tables.Pad | cli/src/tables.rs:304-316 | `push_align` emits `max(width, len)` characters |
| Tables.PadPlacesValue | cli/src/tables.rs:304-316 | the value sits after no padding (left), all of it (right) or half of it rounded down (centre), spaces around it |
| Tables.IdealWidthIsWidest | cli/src/tables.rs:156-172 | the ideal width of an automatic or expandable column is the widest title (on header rows) or cell of that column, and some row attains it |
| Tables.Table.MeasureColumn | cli/src/tables.rs:159-172 | the loop over the rows computes that ideal width |
| Tables.Table.MeasureWidths | cli/src/tables.rs:147-187 | the first loop of `compute_widths`: `Fixed(w)` columns get `w`, the others their ideal width; it sums the fixed/automatic and the expandable widths and counts the expandable columns |
| Tables.Table.ShrinkAll | cli/src/tables.rs:190-206 | the too-narrow branch: expandable columns get 3, the others are scaled down by the ratio |
| Tables.Table.ShrinkExpandable | cli/src/tables.rs:207-216 | the other branch: only expandable columns are scaled into the room left |
| Tables.Table.ComputeWidths | cli/src/tables.rs:145-219 | `compute_widths` gives every column its final width and changes nothing else |
| Tables.SumsWhenFitting | cli/src/tables.rs:189 | when everything fits, the widths are the ideal ones |
| Tables.SumsWhenFixedTooWide | cli/src/tables.rs:190-206 | the sum of widths in the too-narrow branch |
| Tables.SumsWhenExpanding | cli/src/tables.rs:207-216 | the sum of widths in the expanding branch |
| Tables.ScaledSumBound | cli/src/tables.rs:200-215 | rounding each scaled width down never adds up to more than the scaled total |
| Tables.ShrunkFixedFit | cli/src/tables.rs:190-206 | after the too-narrow branch the widths add up to at most `max_width` |
| Tables.ShrunkExpandableFit | cli/src/tables.rs:207-216 | after the expanding branch the widths add up to at most `max_width` |
| Tables.WidthsFit | cli/src/tables.rs:145-219 | whenever `compute_widths` does not underflow, the final widths add up to at most `max_width`, and equal the ideal widths when those fit |
| Tables.Widened | cli/src/tables.rs:145-219 | the columns with their final widths, all else unchanged |
| Tables.WidenedTotal | cli/src/tables.rs:145-219 | their widths add up to the final sum |
| Tables.Fit | cli/src/tables.rs:253-275 | a truncated and aligned cell is exactly as wide as its column |
| Tables.CellText | cli/src/tables.rs:246-276 | a rule, the centred title or the aligned cell: always exactly the column's width |
| Tables.RowCells | cli/src/tables.rs:245-282 | one cell text per column |
| Tables.Lines | cli/src/tables.rs:244-284 | one line per row |
| Tables.JoinedLength | cli/src/tables.rs:279-283 | joining adds `colsep` between each two columns, never after the last, then the end of line |
| Tables.RowCellsTotal | cli/src/tables.rs:245-282 | a row's cells add up to the sum of the column widths |
| Tables.LineWithin | cli/src/tables.rs:244-284 | every line is the column widths, one separator between each two columns, and the newline |
| Tables.LinesFit | cli/src/tables.rs:228-287 | every rendered row line has the same length and fits in `max_width` plus the newline |
| Tables.RenderCell | cli/src/tables.rs:246-276 | one cell is rendered as specified, exactly the column's width |
| Tables.RenderLine | cli/src/tables.rs:245-283 | the column loop renders the row's line |
| Tables.RenderRows | cli/src/tables.rs:244-284 | the row loop renders one line per row, in order |
| Tables.CellsOf | cli/src/tables.rs:122-128 | one cell per column: that column's content of the row |
| Tables.FooterCells | cli/src/tables.rs:130-141 | one cell per column: empty for `Hide` columns, the content of the total otherwise |
| Tables.Table.constructor | cli/src/tables.rs:97-104 | no rows, no title, a vertical bar between columns |
| Tables.Table.WithColsep | cli/src/tables.rs:106-109 | sets only the separator |
| Tables.Table.WithTitle | cli/src/tables.rs:111-114 | sets only the title |
| Tables.Table.WithColHeaders | cli/src/tables.rs:116-120 | appends a header row, then a separator row |
| Tables.Table.AddRows | cli/src/tables.rs:122-128 | appends one cell row per input, in order, one cell per column |
| Tables.Table.AddFooter | cli/src/tables.rs:130-141 | appends a separator, then the footer cells |
| Tables.Table.RenderTitle | cli/src/tables.rs:235-242 | the title centred between two rules of the full width, nothing without a title |
| Tables.Table.ToString | cli/src/tables.rs:228-287 | computes the widths for the room left by the separators, then emits the title block and one line per row |
| Trees.NewNode | alere_lib/src/trees.rs:7-12 | `TreeNode::new`: a node with no children carrying the given key, data and depth |
| Trees.FoldAppend | alere_lib/src/trees.rs:18-25 | folding over two runs of children is folding the second from the first's result |
| Trees.FoldCounts | alere_lib/src/trees.rs:18-25 | folding a counter over the direct children yields their number |
| Trees.HasChildren | alere_lib/src/trees.rs:14-16 | `has_children`: the node has at least one child (used by `Trees.RetainKeepsParents`) |
| Trees.Fold | alere_lib/src/trees.rs:18-25 | `fold`: the accumulation over the direct children in order (`Trees.FoldAppend`, `Trees.FoldCounts`) |
| Trees.Position | alere_lib/src/trees.rs:171 | `position`: the first child whose key equals the one searched, or none when no key is equal |
| Trees.TryGetNode | alere_lib/src/trees.rs:162-182 | an existing node is returned unchanged; otherwise a new node, created from the key at depth `self_depth + 1`, is appended and returned |
| Trees.InsertPath | alere_lib/src/trees.rs:46-62 | one index per level of the path |
| Trees.InsertPathLeadsToKey | alere_lib/src/trees.rs:46-62 | the returned path exists in the new tree and the node at each level has the key of that level |
| Trees.Existing | alere_lib/src/trees.rs:162-182 | how many leading levels of the path exist already |
| Trees.ExistingPathUnchanged | alere_lib/src/trees.rs:171-172 | when the whole path exists, `try_get` leaves the tree unchanged |
| Trees.CountAppend | alere_lib/src/trees.rs:174-179 | appending a node adds it and its descendants to the node count |
| Trees.CountUpdate | alere_lib/src/trees.rs:56-61 | replacing a node's children changes the count by the difference |
| Trees.InsertPathCount | alere_lib/src/trees.rs:46-62 | `try_get` adds exactly one node per missing level of the path |
| Trees.InsertPathKeepsUnique | alere_lib/src/trees.rs:162-182 | keys stay unique among siblings at every level |
| Trees.InsertIntoEmpty | alere_lib/src/trees.rs:46-62 | in an empty tree every level is created, as the first child, and the last node holds the key, the created data and its depth |
| Trees.Insert | alere_lib/src/trees.rs:111-116 | insertion into a sorted run keeps the same elements plus the new one |
| Trees.SortBy | alere_lib/src/trees.rs:115 | `sort_by` is a permutation of the siblings |
| Trees.InsertSorted | alere_lib/src/trees.rs:115 | insertion keeps a run sorted, for an antisymmetric comparison |
| Trees.SortBySorted | alere_lib/src/trees.rs:115 | `sort_by` sorts the siblings |
| Trees.InsertStable | alere_lib/src/trees.rs:115 | for a transitive, antisymmetric comparison, inserting a node into a sorted run puts it after every node that compares equal to a given key |
| Trees.SortByStable | alere_lib/src/trees.rs:115 | `sort_by` is stable: for a transitive, antisymmetric comparison, the nodes that compare equal to any key come out in the order they went in (so same-named accounts, which compare `Equal`, keep their order) |
| Trees.SortChildren | alere_lib/src/trees.rs:116-118 | the loop over the nodes changes only their children, position by position |
| Trees.Datas | alere_lib/src/trees.rs:185-191 | the data of each node, in order |
| Trees.DatasAppend | alere_lib/src/trees.rs:185-191 | taking the data distributes over concatenation |
| Trees.InsertDatas | alere_lib/src/trees.rs:115 | insertion adds exactly the node's data |
| Trees.SortByDatas | alere_lib/src/trees.rs:115 | sorting keeps the same multiset of node data |
| Trees.SortRecursiveSorted | alere_lib/src/trees.rs:66-72 | `sort` leaves every level sorted and each level's data the same multiset |
| Trees.SortRecursive | alere_lib/src/trees.rs:111-119 | `sort_recursive`: every level sorted by `cmp`, keeping each level's data (`Trees.SortRecursiveSorted`) |
| Trees.Filter | alere_lib/src/trees.rs:128 | `retain` keeps exactly the nodes the filter accepts |
| Trees.FilterSingle | alere_lib/src/trees.rs:128 | `retain` on one node keeps it exactly when the filter accepts it |
| Trees.FilterAppend | alere_lib/src/trees.rs:128 | `retain` of two runs of nodes is the concatenation of their retains, so the kept nodes stay in order, each once |
| Trees.PruneAll | alere_lib/src/trees.rs:124-126 | each node's children are pruned first, in place |
| Trees.RetainSeesPrunedChildren | alere_lib/src/trees.rs:74-81 | a node is kept exactly when the filter accepts it with its children already pruned, and every kept node at every level passes the filter |
| Trees.RetainKeepsParents | alere_lib/src/trees.rs:74-81 | with a filter that keeps nodes with children, a kept childless node passed the caller's own test |
| Trees.RetainRecursive | alere_lib/src/trees.rs:121-129 | `retain_recursive`: children are pruned first, then a node is kept when the filter accepts it (`Trees.RetainSeesPrunedChildren`) |
| Trees.TraverseVisitsAll | alere_lib/src/trees.rs:83-102 | both orders visit the same nodes, each node once |
| Trees.TraverseRecursive | alere_lib/src/trees.rs:131-143 | `traverse_recursive`: the nodes in parent-first or parent-last order, each once (`Trees.TraverseVisitsAll`, `Trees.CountFirst`, `Trees.ParentPosition`) |
| Trees.CountFirst | alere_lib/src/trees.rs:131-143 | a list's node count is its first node, that node's descendants and the rest |
| Trees.ParentPosition | alere_lib/src/trees.rs:131-143 | the parent comes before its descendants when parent first, after them otherwise |
| Trees.TraverseMutKeepsShape | alere_lib/src/trees.rs:145-158 | processing changes data only, never the number or nesting of nodes |
| Trees.TraverseRecursiveMut | alere_lib/src/trees.rs:145-158 | `traverse_recursive_mut`: every node's data replaced by its processed copy, the shape unchanged (`Trees.TraverseMutKeepsShape`) |
| Trees.Tree.constructor | alere_lib/src/trees.rs:37-43 | an empty tree |
| Trees.Tree.TryGet | alere_lib/src/trees.rs:46-62 | looks up or creates the path given innermost parent first: the new roots are those of the descent from the outermost parent, and the returned path leads to the key |
| Trees.Tree.Sort | alere_lib/src/trees.rs:66-72 | `sort` replaces the roots with their recursive sort |
| Trees.Tree.Retain | alere_lib/src/trees.rs:76-81 | `retain` replaces the roots with their recursive filtering |
| Trees.Tree.TraverseMut | alere_lib/src/trees.rs:87-93 | `traverse_mut` replaces the roots with their processed copy |
| Trees.Tree.Traverse | alere_lib/src/trees.rs:96-102 | `traverse`: the nodes of the roots in the chosen order (`Trees.TraverseVisitsAll`) |
| Trees.Reversed | alere_lib/src/trees.rs:57 | `parents.iter().rev()`: the same elements in reverse order |
| TreeKeys.Rank | alere_lib/src/tree_keys.rs:34-69 | variants sort as: named institutions, no institution, named kinds, no kind, accounts |
| TreeKeys.CmpByRankThenName | alere_lib/src/tree_keys.rs:34-69 | `cmp` orders keys by variant first, then by name; the two missing-object keys are equal to themselves |
| TreeKeys.Cmp | alere_lib/src/tree_keys.rs:34-69 | `Ord::cmp` on keys: by variant, then by name, a total order (`TreeKeys.CmpByRankThenName`, `TreeKeys.CmpAntisymmetric`, `TreeKeys.CmpTransitive`) |
| TreeKeys.CmpAntisymmetric | alere_lib/src/tree_keys.rs:34-69 | comparing the other way round gives the reverse ordering |
| TreeKeys.CmpTransitive | alere_lib/src/tree_keys.rs:34-69 | the order is transitive, strictly when one step is strict |
| TreeKeys.EqConsistentWithCmp | alere_lib/src/tree_keys.rs:13-30 | `eq` is reflexive and symmetric, and equal keys compare `Equal` |
| TreeKeys.Eq | alere_lib/src/tree_keys.rs:13-30 | `PartialEq` on keys: the same object, compared by identity (`TreeKeys.EqByIdentity`, `TreeKeys.EqConsistentWithCmp`) |
| TreeKeys.EqByIdentity | alere_lib/src/tree_keys.rs:13-30 | accounts and named institutions are equal only when they are the same object; other keys are equal when they compare `Equal` |
| TreeKeys.SameNameAccounts | alere_lib/src/tree_keys.rs:17-20 | two accounts with the same name compare `Equal` but are not equal |
| TreeKeys.SameNameKinds | alere_lib/src/tree_keys.rs:28 | two account kinds with the same name are equal |
| TreeKeys.SampleOrder | alere_lib/src/tree_keys.rs:110-138 | the orderings the tests expect between sample keys |
| Accounts.Inc | alere_lib/src/accounts.rs:48-52 | `inc` is the next id; the 16-bit addition overflows on the last one |
| Accounts.SetParent | alere_lib/src/accounts.rs:117-119 | `set_parent` sets the parent and changes nothing else |
| Utils.Lookup | alere_lib/src/accounts.rs:19-25 | `get` of the account collection (and, by the same code, of the account-kind collection at account_kinds.rs:13-15) finds an element exactly when the id is within the collection, at position `id - 1` |
| Accounts.ShortNameIsOwn | alere_lib/src/accounts.rs:29-32 | the short name is the account's own name |
| Accounts.FullNameEndsWithOwn | alere_lib/src/accounts.rs:33-41 | a full name ends with the account's own name, and is only that name when the account has no parent |
| Accounts.FuelIrrelevant | alere_lib/src/accounts.rs:27-43 | a name once found does not depend on the bound on ancestors |
| Accounts.AccountName | alere_lib/src/accounts.rs:27-43 | `name` as a function of the accounts: the own name, or the parent's full name, "::" and the own name (`Accounts.ShortNameIsOwn`, `Accounts.FullNameEndsWithOwn`, `Accounts.FullNameExistsIffChainEnds`) |
| Accounts.FullNameExistsIffChainEnds | alere_lib/src/accounts.rs:27-43 | a full name exists exactly when the chain of parents stays in the collection and ends at a root |
| Accounts.SelfParentNeverEnds | alere_lib/src/accounts.rs:36-37 | an account that is its own parent has no full name: the recursion never ends |
| Accounts.AccountCollection.constructor | alere_lib/src/accounts.rs:10-11 | an empty collection |
| Accounts.AccountCollection.Add | alere_lib/src/accounts.rs:14-17 | `add` appends the account and returns the new count truncated to 16 bits |
| Accounts.AccountCollection.Get | alere_lib/src/accounts.rs:23-25 | `get` reads position `id - 1` |
| Accounts.AccountCollection.Name | alere_lib/src/accounts.rs:27-43 | `name` on the collection reads the accounts it holds (`Accounts.AddKeepsNames`, `Accounts.SetParentFullName`) |
| Accounts.AccountCollection.SetParentOf | alere_lib/src/accounts.rs:19-21 | through `get_mut`, only that account's parent changes |
| Accounts.AddThenGet | alere_lib/src/accounts.rs:14-25 | below 65535 accounts, `get` finds the added account under the returned id, and the others are unchanged |
| Accounts.AddWrapsAtLimit | alere_lib/src/accounts.rs:16 | at 65535 accounts the returned id wraps to 0 |
| Accounts.AddKeepsNames | alere_lib/src/accounts.rs:14-43 | adding an account changes no name of the accounts already there |
| Accounts.SetParentFullName | alere_lib/src/accounts.rs:33-41 | after `set_parent(p)`, the full name is the full name of `p`, "::" and the own name, unless that would go through the account itself |
| Accounts.UnrelatedNameKept | alere_lib/src/accounts.rs:33-41 | changing a parent leaves every name that does not go through that account unchanged |
| AccountKinds.Discriminant | alere_lib/src/account_categories.rs:5-21 | the discriminants of the categories: expense 0, income 1, equity 2, asset 3, liability 4 |
| AccountKinds.New | alere_lib/src/account_kinds.rs:215-235 | `new` keeps the names and category given and clears every flag |
| AccountKinds.SetIsWorkIncome | alere_lib/src/account_kinds.rs:237-240 | sets its flag and keeps every other field |
| AccountKinds.SetIsPassiveIncome | alere_lib/src/account_kinds.rs:241-244 | sets its flag and keeps every other field |
| AccountKinds.SetIsUnrealized | alere_lib/src/account_kinds.rs:245-248 | sets its flag and keeps every other field |
| AccountKinds.SetIsNetworth | alere_lib/src/account_kinds.rs:249-252 | sets its flag and keeps every other field |
| AccountKinds.SetIsTrading | alere_lib/src/account_kinds.rs:253-256 | sets its flag and keeps every other field |
| AccountKinds.SetIsStock | alere_lib/src/account_kinds.rs:257-260 | sets its flag and keeps every other field |
| AccountKinds.SetIsIncomeTax | alere_lib/src/account_kinds.rs:261-264 | sets its flag and keeps every other field |
| AccountKinds.SetIsMiscTax | alere_lib/src/account_kinds.rs:265-268 | sets its flag and keeps every other field |
| AccountKinds.ExpenseNotIncome | alere_lib/src/account_kinds.rs:270-275 | `is_expense` and `is_income` never both hold, and each matches its category's discriminant |
| AccountKinds.IsExpense | alere_lib/src/account_kinds.rs:270-272 | `is_expense`: the category is `Expense` (`AccountKinds.ExpenseNotIncome`) |
| AccountKinds.IsIncome | alere_lib/src/account_kinds.rs:273-275 | `is_income`: the category is `Income` (`AccountKinds.ExpenseNotIncome`) |
| AccountKinds.DefaultKinds | alere_lib/src/account_kinds.rs:19-148 | the fifteen predefined kinds |
| AccountKinds.AccountKindCollection.constructor | alere_lib/src/account_kinds.rs:20 | an empty collection |
| AccountKinds.AccountKindCollection.Default | alere_lib/src/account_kinds.rs:19-148 | `default` adds the fifteen predefined kinds, in order |
| AccountKinds.AccountKindCollection.Add | alere_lib/src/account_kinds.rs:8-11 | `add` appends the kind and returns the new count as a 32-bit id |
| AccountKinds.AccountKindCollection.Get | alere_lib/src/account_kinds.rs:13-15 | `get` reads position `id - 1` |
| AccountKinds.AddThenGet | alere_lib/src/account_kinds.rs:8-15 | `get` finds the added kind under the returned id, and the others keep their ids |
| AccountKinds.DefaultIds | alere_lib/src/account_kinds.rs:19-148 | in the default collection, ids 1 to 15 are the kinds in the order they were added, and 16 is unknown |
| AccountKinds.DefaultFlagsConsistent | alere_lib/src/account_kinds.rs:19-148 | among the default kinds, networth kinds are neither income nor expense, trading kinds count in the networth and stock kinds are trading kinds |
| AccountKinds.DefaultCategories | alere_lib/src/account_kinds.rs:19-148 | among the default kinds, ids 1 to 4 are income, 5 to 7 expense, the others neither |
| Commodities.MaxId | alere_lib/src/commodities.rs:81-87 | the largest id of the list, attained by one of its commodities; 0 for an empty list |
| Commodities.LargestId | alere_lib/src/commodities.rs:81-87 | the loop over the commodities computes that largest id |
| Commodities.CurrenciesOf | alere_lib/src/commodities.rs:66-67 | exactly the currencies among the commodities |
| Commodities.AppendKeepsIds | alere_lib/src/commodities.rs:79-103 | a new id one above the largest is above every other, so ids stay unique, and only a currency extends the currency list |
| Commodities.CommodityCollection.constructor | alere_lib/src/commodities.rs:63-67 | no commodities and no currencies |
| Commodities.CommodityCollection.Add | alere_lib/src/commodities.rs:70-104 | `add` gives the new commodity the next id, trims its symbol, appends it, and lists it among the currencies when it is one |
| Commodities.CommodityCollection.ListCurrencies | alere_lib/src/commodities.rs:111-113 | `list_currencies` holds exactly the currencies among the commodities |
| Commodities.CommodityCollection.Find | alere_lib/src/commodities.rs:119-121 | `find` returns the first commodity with that name |
| Commodities.FirstNamed | alere_lib/src/commodities.rs:44-46 | none exactly when no commodity has that name; otherwise a commodity of the list with that name |
| Commodities.IdentityNotFields | alere_lib/src/commodities.rs:49-53 | equality is identity: the same fields under two ids are two commodities |
| Commodities.FindAmongTwo | alere_lib/src/commodities.rs:193-202 | in the test's collection, `find("AAPL")` finds the security and an unknown name finds nothing |
| Commodities.AddExample | alere_lib/src/commodities.rs:193-202 | adding EUR then AAPL hands out ids 1 and 2, and only EUR is listed as a currency |
| Commodities.FindExample | alere_lib/src/commodities.rs:193-202 | `find` returns AAPL for "AAPL" and nothing for "FOO" |
| Utils.IsAllSame | alere_lib/src/utils.rs:1-4 | fewer than two elements are all the same |
| Utils.AllSameIffAdjacentEqual | alere_lib/src/utils.rs:1-4 | true exactly when every adjacent pair is equal |
| Utils.AllSameIffAllEqualFirst | alere_lib/src/utils.rs:1-4 | true exactly when every element equals the first, as its documentation says |
| Text.TrimStart | alere_lib/src/kmymoney.rs:258 | drops the leading white space and no more |
| Text.TrimEnd | alere_lib/src/kmymoney.rs:258 | drops the trailing white space and no more |
| Text.Trim | alere_lib/src/commodities.rs:90 | the text with its leading and trailing white space removed: a slice of the input with only white space before and after it, no white space at either end, and empty exactly when the text is all white space |
| Text.AsciiLower | alere_lib/src/kmymoney.rs:259 | same length; ASCII capitals become lower case, other characters are kept |
| Text.Split | alere_lib/src/kmymoney.rs:29 | at least one piece, none holding the separator |
| Text.JoinSplit | alere_lib/src/kmymoney.rs:29 | joining the pieces back with the separator gives the text |
| Text.SplitCount | alere_lib/src/kmymoney.rs:29 | one more piece than separators |
| Text.CmpStr | alere_lib/src/tree_keys.rs:38 | `str::cmp` is `Equal` exactly on equal strings |
| Text.CmpStrAntisymmetric | alere_lib/src/tree_keys.rs:38 | comparing the other way round gives the reverse ordering |
| Text.CmpStrTransitive | alere_lib/src/tree_keys.rs:38 | the order is transitive, strictly when one step is strict |
| Text.PrefixFirst | alere_lib/src/tree_keys.rs:38 | a proper prefix comes first |
| KmyMoney.ParseI64 | alere_lib/src/kmymoney.rs:32 | `parse::<i64>` yields only values within the range of `i64` |
| KmyMoney.ParseShowInt | alere_lib/src/kmymoney.rs:32-37 | parsing reads back every `i64` as Rust prints it |
| KmyMoney.TruncDivMeaning | alere_lib/src/kmymoney.rs:38-44 | truncation toward zero: the largest whole number of divisors that fits, with the sign of the exact quotient |
| KmyMoney.TruncDiv | alere_lib/src/kmymoney.rs:38-44 | division truncated toward zero, as `trunc_with_scale` does on the quotient (`KmyMoney.TruncDivMeaning`) |
| KmyMoney.TruncatedUnits | alere_lib/src/kmymoney.rs:38-44 | the price in units of 10^-precision: numerator times 10^precision divided by the denominator, truncated toward zero (`KmyMoney.ParsePriceTruncates`) |
| KmyMoney.ParsePrice | alere_lib/src/kmymoney.rs:24-49 | `parse_price`: no price for an empty text, and a price for every other text it accepts |
| KmyMoney.ParsePriceTruncates | alere_lib/src/kmymoney.rs:24-49 | for "num/den", the price is `num/den` truncated toward zero to `price_precision` decimals: of the quotient's sign and less than one unit of the last decimal from it |
| KmyMoney.SplitShown | alere_lib/src/kmymoney.rs:29-30 | a printed fraction splits into exactly its two numbers |
| KmyMoney.SplitAround | alere_lib/src/kmymoney.rs:29-30 | splitting around one separator gives its two sides |
| KmyMoney.SplitNone | alere_lib/src/kmymoney.rs:29-30 | a text without the separator is one piece, which the assertion rejects |
| KmyMoney.ZeroNumerator | alere_lib/src/kmymoney.rs:32-35 | a zero numerator gives a zero price, whatever the denominator |
| KmyMoney.BadNumerator | alere_lib/src/kmymoney.rs:32 | a numerator that is not a number is an error, not a panic |
| KmyMoney.PriceExample | alere_lib/src/kmymoney.rs:40-44 | "13687/35" at precision 2 is 391.05, as the comment expects |
| KmyMoney.FirstHint | alere_lib/src/kmymoney.rs:249-253 | a line starting with "alere:" such that no earlier line does (the first one), or none exactly when no line does |
| KmyMoney.HintHasSecondField | alere_lib/src/kmymoney.rs:256 | a hint line always has a field after "alere", so `nth(1).unwrap()` cannot fail |
| KmyMoney.SplitPrefix | alere_lib/src/kmymoney.rs:250 | splitting after a first piece without the separator gives that piece, then the pieces of the rest |
| KmyMoney.KindName | alere_lib/src/kmymoney.rs:242-259 | the second ':' field of the first hint line, or else the account type, trimmed and lower-cased |
| KmyMoney.LookupKind | alere_lib/src/kmymoney.rs:221-236 | the importer's own kinds first, then the repository's; otherwise an error naming the kind |
| KmyMoney.GuessAccountKind | alere_lib/src/kmymoney.rs:242-262 | `guess_account_kind` looks up the kind named by the hint or the type: the importer's kind when the importer knows the name, otherwise the repository's kind when it knows it, otherwise an error naming the kind |
| KmyMoney.NoDescriptionUsesType | alere_lib/src/kmymoney.rs:249-259 | without a description, the account type names the kind |
| KmyMoney.HintWins | alere_lib/src/kmymoney.rs:249-259 | a hint on the first line wins over the account type, whatever follows it |
| Networth.Zeros | alere_lib/src/networth.rs:58-59 | `size` zero values |
| Networth.NewRow | alere_lib/src/networth.rs:51-68 | `NetworthRow::new`: zero values and market values, the account's full name (empty without account), no children |
| Networth.NewRowWithChildren | alere_lib/src/networth.rs:70-79 | the same row, marked as having children |
| Networth.AddColumns | alere_lib/src/networth.rs:121-124 | adding column by column: every commodity's amount is the sum in the columns done, the others unchanged |
| Networth.Merge | alere_lib/src/networth.rs:119-126 | `merge` adds both kinds of value column by column, ORs the children flags and keeps the rest of the left row |
| Networth.MergedWellFormed | alere_lib/src/networth.rs:119-126 | merging rows of the same width keeps that width |
| Networth.Merged | alere_lib/src/networth.rs:119-126 | `merge` as a function: column-by-column sums and the OR of the children flags (`Networth.Merge`, `Networth.MergedWellFormed`) |
| Networth.MergeOrderIrrelevant | alere_lib/src/networth.rs:119-126 | merging two rows into a third gives the same values in either order |
| Networth.SingleColumnDroppedAsWritten | alere_lib/src/networth.rs:205-214 | with `hide_all_same`, the filter as written drops a non-zero childless row at a single timestamp |
| Networth.KeepRowAsWritten | alere_lib/src/networth.rs:205-214 | the filter of `Networth::new` as written: parents kept; `hide_zero` drops all-zero rows and `hide_all_same` drops rows constant across the columns, one column included (`Networth.HideZeroDrops`, `Networth.HideAllSameDrops`) |
| Networth.KeepRow | alere_lib/src/networth.rs:24-27 | the documented filter: `hide_all_same` only applies from two timestamps on (`Networth.SingleColumnKept`, `Networth.RulesAgreeOnSeveralColumns`) |
| Networth.SingleColumnKept | alere_lib/src/networth.rs:24-27 | the documented rule keeps every single-timestamp row unless `hide_zero` hides it |
| Networth.RulesAgreeOnSeveralColumns | alere_lib/src/networth.rs:205-214 | the rule as written and the documented one agree from two timestamps on |
| Networth.ParentsAndUnfilteredKept | alere_lib/src/networth.rs:205-214 | under both rules, parent rows are always kept, and with no hiding setting every row is |
| Networth.HideZeroDrops | alere_lib/src/networth.rs:205-211 | `hide_zero` drops exactly the childless rows whose values and market values are all zero; the documented rule drops the same rows |
| Networth.HideAllSameDrops | alere_lib/src/networth.rs:205-214 | `hide_all_same`, as written, drops exactly the childless rows whose value and market value each equal their first column, whatever the number of columns |
| Networth.Retain | alere_lib/src/networth.rs:205-214 | every retained row passes the rule as written |
| Networth.RetainExactly | alere_lib/src/networth.rs:205-214 | a row is retained exactly when the rule as written keeps it, as often as it was a line |
| Networth.RetainIntendedOnSeveralColumns | alere_lib/src/networth.rs:205-214 | when every row has two columns or more, the retained rows are exactly the lines the documented rule keeps |
| Networth.InsertByName | alere_lib/src/networth.rs:216-218 | insertion keeps the same rows plus the new one |
| Networth.SortByName | alere_lib/src/networth.rs:216-218 | the sort is a permutation of the lines |
| Networth.InsertByNameSorted | alere_lib/src/networth.rs:216-218 | insertion keeps the lines in order of full name |
| Networth.SortByNameSorted | alere_lib/src/networth.rs:216-218 | the lines end up in order of full account name and hold the same rows |
| Networth.NamedMeaning | alere_lib/src/networth.rs:216-218 | the lines with a given full account name, in order: exactly the lines of that name, no more of them than lines |
| Networth.SortByNameStable | alere_lib/src/networth.rs:216-218 | the sort is stable, as `sort_by` is: lines with the same full account name keep their relative order |
| Networth.Start | alere_lib/src/networth.rs:144-152 | before the first balance: no lines, no recorded account and a zero total row without account |
| Networth.MarketColumns | alere_lib/src/networth.rs:157-164 | one market value per column |
| Networth.AccountRow | alere_lib/src/networth.rs:155-164 | the account's row holds its balance, one market value per column |
| Networth.AddToTotal | alere_lib/src/networth.rs:160-161 | the total keeps its width |
| Networth.EnsureParent | alere_lib/src/networth.rs:170-178 | a parent not seen yet gets a new line and is recorded; the total is unchanged |
| Networth.MarkParent | alere_lib/src/networth.rs:179-182 | the parent's line gets children; nothing else is recorded |
| Networth.AddParents | alere_lib/src/networth.rs:166-184 | the parents loop keeps every account already recorded and the total |
| Networth.EnsureParentEntry | alere_lib/src/networth.rs:170-178 | the lookup or insertion in `parent_nodes` |
| Networth.MarkParentEntry | alere_lib/src/networth.rs:179-182 | marking the parent line, and merging the row into it with subtotals |
| Networth.AddOwn | alere_lib/src/networth.rs:186-199 | the account's own entry records the account and leaves the total unchanged |
| Networth.IndentedRow | alere_lib/src/networth.rs:155-168 | the row of a balance holds its values, indented by its number of parents in tree mode |
| Networth.Step | alere_lib/src/networth.rs:154-200 | one balance records its account and keeps every account already recorded |
| Networth.Build | alere_lib/src/networth.rs:154-200 | after the loop every balance's account has a line |
| Networth.BuildTotal | alere_lib/src/networth.rs:154-164 | the total row holds, per column, the sum of the balances and of the market values of the non-zero ones |
| Networth.StepTotal | alere_lib/src/networth.rs:157-164 | one balance adds its value and market value to the total |
| Networth.EnsureParentAmount | alere_lib/src/networth.rs:170-178 | a new parent line starts at zero, so no line amount changes |
| Networth.MarkParentAmount | alere_lib/src/networth.rs:179-182 | only the parent's line changes, by the row's value with subtotals |
| Networth.AddParentsAmount | alere_lib/src/networth.rs:169-183 | with distinct parents, each parent's line gains the row's value with subtotals, and no other line changes |
| Networth.AddOwnAmount | alere_lib/src/networth.rs:186-199 | the own entry adds the row's value to the line of its account only |
| Networth.StepAmount | alere_lib/src/networth.rs:154-200 | one balance goes into the line of each account it counts for |
| Networth.BuildAmount | alere_lib/src/networth.rs:154-200 | every account's line holds its own balance and, with subtotals in tree mode, the balances of all the accounts it is a parent of |
| Networth.FlatStep | alere_lib/src/networth.rs:186-199 | outside tree mode, a new account's row is pushed and recorded at its index |
| Networth.AccountRows | alere_lib/src/networth.rs:155-164 | the rows of the balances, one each, in order |
| Networth.FlatBuild | alere_lib/src/networth.rs:154-200 | outside tree mode, each balance of a distinct account gets its own line, in order |
| Networth.MarketUpTo | alere_lib/src/networth.rs:157-164 | the market values after the column loop has run to the end |
| Networth.ValueRow | alere_lib/src/networth.rs:155-164 | the column loop builds the account's row and adds it to the total |
| Networth.AddParentsLoop | alere_lib/src/networth.rs:166-184 | the parents loop, proved against its specification |
| Networth.AddOwnEntry | alere_lib/src/networth.rs:186-199 | the account's own entry: merged into its recorded line, or pushed and recorded |
| Networth.AddBalance | alere_lib/src/networth.rs:154-200 | one iteration of the loop over the balances |
| Networth.BuildLines | alere_lib/src/networth.rs:152-200 | the loop over the balances, before filtering and sorting |
| Networth.NetworthView.constructor | alere_lib/src/networth.rs:139-220 | `Networth::new`: the lines are the built rows that the rule as written keeps, sorted by full name, and the total is the built total |

## Left out

- Floating point.
  - The `NothingBetween` instances for `f32`/`f64` and for `DateTime` are not modelled; only the integer instance is.
  - Timestamps are integers, and `alere_lib/src/times.rs` is not part of this model.
- Tables.WidthsFit: the shrink branch of `compute_widths` scales by an `f32` ratio and truncates with `as usize`. The model scales by the exact rational and rounds down, so the bound is proved for exact arithmetic only; `f32` rounding error is not modelled.
- Integer widths of the interval bounds and commodity ids are not modelled:
  - Intervals.NothingBetween subtracts unbounded integers. The `i64` subtraction `other - self` (alere_lib/src/intervals.rs:689-693) overflows for operands more than `i64::MAX` apart; `nothing_between(i64::MIN, i64::MAX)` panics in a debug build and returns true in a release build, where the model returns false.
  - Commodities.CommodityCollection.Add gives the id `1 + MaxId` over `nat`. The `u32` addition `max + 1` (alere_lib/src/commodities.rs:80-86) overflows once a commodity has id `u32::MAX`.
- Decimal arithmetic is exact `real` arithmetic. The 28-digit range of `rust_decimal` and its overflow panics are not modelled.
- `round_dp_with_strategy` and `to_string` are outside this model. The formatter takes the decimal text of the rounded absolute amount as an input, and `Formatters.RoundedUnits` states the midpoint-toward-zero rounding separately.
- `trunc_with_scale` is modelled as exact truncation toward zero of the quotient.
- KmyMoney.ParsePrice: the caller must give a text that splits into exactly two parts and has a non-zero denominator when the numerator is not zero. The source panics in both cases (the `assert_eq!` and the decimal division), so these panics are preconditions.
- `parse::<i64>` accepts an optional sign and decimal digits. Its exact error values are not modelled; every error is one `Err`.
- Formatters.QuotingMeaning: `char::is_alphanumeric` is modelled for ASCII letters and digits only. A name or symbol with another Unicode letter or digit, such as "zł", is quoted by the `*IfSpecial` modes where the code leaves it bare.
- Formatters.CommodityText: the same ASCII-only alphanumeric test decides the quoting.
- Formatters.PushCommodity: appends that text, so it quotes a non-ASCII letter or digit that the code leaves bare.
- Formatters.DisplaySymbol: inherits the ASCII-only test through `push_commodity`.
- MarketPrices.MarketPrices.constructor: requires every stored price to be non-zero, because the class invariant keeps every price invertible. The code stores zero prices too, and panics only when a reverse lookup inverts one.
- `to_lowercase` is modelled for ASCII letters only. Other characters are kept unchanged, so the full Unicode case mapping is not modelled.
- `Rc<RefCell<..>>` sharing and `std::ptr::eq` are replaced by integer identities for accounts, institutions, kinds and commodities.
  - Trees and networth rows are plain values that own their children, so aliasing through `&mut` is not modelled.
  - The in-place operators of `MultiValue` (`+=`, `-=`, `apply`) and `NetworthRow::merge` return the new value instead of updating a shared one.
- `HashMap` iteration order is a parameter where it matters: the order in which `convert_multi_value` visits the commodities, and the order of the balances in `Networth::new`.
- The repository is not modelled. `Networth::new` receives the balances, the full account names, the account parents and the market conversion as data and functions; `lookup_kind` receives the repository's lookup as a function.
- The per-pair cache that `Networth::new` keeps through `MarketPrices` is not modelled there: its conversion is a pure function. The cache itself is modelled and proved in `MarketPrices`.
- The `Settings` column flags (`column_value`, `column_market`, the deltas), `account_names` and `commodity` only matter for display.
  - The display functions at alere_lib/src/networth.rs:81-117 and `cli/src/networth.rs` are not part of this model.
- Accounts full names: the source recurses without bound and panics on a missing account. The model bounds the number of ancestors followed with a `fuel` argument and returns `None` in both cases. `Accounts.FuelIrrelevant` shows the bound does not change any name once found.
- Closures (`FnMut`) passed to the tree, the table columns and the formatter are pure functions. Side effects inside them are not modelled.
  - `traverse_mut` is modelled with a `process` that computes a node's new data.
  - `traverse` is modelled as the sequence of nodes it visits.
- Panics are preconditions:
  - `AccountId::inc` on the last id;
  - `get` with id 0 (alere_lib/src/accounts.rs:24, alere_lib/src/account_kinds.rs:14): `id.0 as usize - 1` panics there in a debug build. A release build wraps it to `usize::MAX`, so `get` returns `None`. `Utils.Lookup` requires an id of at least 1 and so models neither;
  - `trunc_keep_last` with width 0;
  - `to_string` of a table without columns;
  - a zero price that `invert` would divide by;
  - a zero divisor in `Value / Decimal` (`MultiValues.ValueDiv`) and, for a non-zero value, in `MultiValue / Decimal` (`MultiValues.DivScalar`);
  - the `usize` subtraction `max_width - expandable_count * 3` in `compute_widths` (cli/src/tables.rs:195-196) when the fixed columns do not fit and the expandable columns want more than `max_width`. `Tables.ShrinkDefined` excludes it, and `Tables.Table.ComputeWidths` and `Tables.RenderDefined` require it. The code panics there in a debug build and wraps in a release build;
  - the `usize` subtraction `max_width - (columns - 1) * colsep` in `to_string` (cli/src/tables.rs:228-229) when the separators alone are wider than `max_width`. `Tables.RenderDefined` and `Tables.TotalWidth` require `max_width` to hold them. The code panics there in a debug build and wraps in a release build;
  - an operand of `+=` that is not normalized (the `assert!`s at alere_lib/src/multi_values.rs:467-468), which `MultiValues.Apply` requires of the value only for the operations that add a quantity, and of the added quantity.
- Each operator is modelled once. The by-value and by-reference overloads, `Display`/`Debug` impls, and the getters `get_id`, `get_name`, `get_symbol` and `set_isin` only delegate, so they are not modelled separately.
- The SQLite import pipeline, the file exporters, the command-line front end other than `cli/src/tables.rs`, and the metrics, perf, stats and repository reports are not part of this model.

## Findings

| source | as written | input that shows it | evidently intended | confidence | as-written member | corrected member |
|---|---|---|---|---|---|---|
| alere_lib/src/multi_values.rs:611-630 | `Sub` and `SubAssign` insert the right operand's amount un-negated for a commodity missing from the left (lines 618, 628, 692, 699) | `{1: 1, 2: 1} - 1 of commodity 3` holds +1 of commodity 3 | it holds -1 of commodity 3, i.e. `x - y == x + (-y)` | not executed | MultiValues.SubAsWrittenKeepsSign | MultiValues.SubIsAddNeg |
| alere_lib/src/formatters.rs:79-97 | with `negate`, the sign is negated into the number before the integer digits are grouped, so the '-' counts as a digit | 123456 with `negate` and `Every3Digit(',')` renders "-,123,456" | "-123,456" | not executed | Formatters.NegatedSeparatorAfterSign | Formatters.NegatedSignBeforeGroups |
| alere_lib/src/networth.rs:205-214 | `hide_all_same` drops every childless row when there is a single timestamp, since one column is always "all the same" | one timestamp, `hide_all_same`, a row of value 1: dropped | rows are always displayed with a single timestamp, as documented at lines 24-26 | not executed | Networth.SingleColumnDroppedAsWritten | Networth.SingleColumnKept |

The operations that use these pieces follow the code as written. `Formatters.Push` and `Formatters.Display` emit the number as `push_abs_num` writes it; `Formatters.NegatedDisplayExample` shows the whole text "-,123,456 EUR". `Networth.Retain` and `Networth.NetworthView.constructor` filter with the rule as written. The corrected definitions stand beside them with their intended properties proved, and `Formatters.NegatedAsWritten` and `Networth.RulesAgreeOnSeveralColumns` state exactly where each pair differs.

The comment at alere_lib/src/trees.rs:189 says depths start at 0 for root nodes. The code creates a root at depth 1, since `try_get` passes `self_depth + 1` with a starting depth of 0. The model follows the code; `Trees.InsertIntoEmpty` states the depth it gives.
