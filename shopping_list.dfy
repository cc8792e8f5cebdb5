/**
 The shopping-list download: the caller's cart joined to the ingredient rows
 of the recipes in it, grouped by (ingredient name, measurement unit) with
 the amounts summed, and rendered as text under a header line.
 */
module ShoppingList {
  import opened Seqs
  import opened Users
  import opened Recipes

  /** The header line. Its first letter is the Latin capital C; the rest is Cyrillic. */
  const HEADER: string := "C\U{43f}\U{438}\U{441}\U{43e}\U{43a} \U{43f}\U{43e}\U{43a}\U{443}\U{43f}\U{43e}\U{43a}:"

  /** One joined row: `ingredient__name`, `ingredient__measurement_unit`, `amount`. */
  datatype Line = Line(name: string, unit: string, amount: nat)

  /** One grouped row: the two grouping columns and `amount_sum`. */
  datatype Group = Group(name: string, unit: string, total: nat)

  /**
   The rows of `RecipeIngredient.objects.filter(recipe__is_in_shopping_cart__user=user)`:
   each ingredient row of a recipe in the cart, once per cart entry that
   matches it (an inner join, so a recipe in the cart twice counts twice).
   */
  function CartLines(rows: seq<RecipeIngredient>, ingredients: seq<Ingredient>, carts: seq<CartEntry>, user: Id): (r: seq<Line>)
    ensures forall l :: l in r ==>
      exists ri, i :: ri in rows && i in ingredients && i.id == ri.ingredient
        && CartEntry(user, ri.recipe) in carts && l == Line(i.name, i.measurementUnit, ri.amount)
  {
    if rows == [] then []
    else
      var ri := rows[0];
      var here := match IngredientById(ingredients, ri.ingredient)
        case None => []
        case Some(i) => Repeat(Line(i.name, i.measurementUnit, ri.amount), multiset(carts)[CartEntry(user, ri.recipe)]);
      var rest := CartLines(rows[1..], ingredients, carts, user);
      assert forall x :: x in rows[1..] ==> x in rows;
      assert forall l :: l in here ==> CartEntry(user, ri.recipe) in carts by {
        if here != [] {
          assert multiset(carts)[CartEntry(user, ri.recipe)] > 0;
        }
      }
      here + rest
  }

  /**
   The (name, unit) pairs the download can list, read off the tables: the
   ingredient of every ingredient row whose recipe is in the caller's cart.
   */
  function CartKeys(rows: seq<RecipeIngredient>, ingredients: seq<Ingredient>, carts: seq<CartEntry>, user: Id): set<(string, string)>
  {
    set ri, i | ri in rows && i in ingredients && i.id == ri.ingredient && CartEntry(user, ri.recipe) in carts
      :: (i.name, i.measurementUnit)
  }

  lemma LineKeysConcat(a: seq<Line>, b: seq<Line>)
    ensures LineKeys(a + b) == LineKeys(a) + LineKeys(b)
  {
    assert forall l :: l in a + b <==> l in a || l in b;
  }

  /**
   With unique ingredient keys, the join yields exactly the pairs of
   `CartKeys`: one per ingredient row of a recipe in the caller's cart.
   */
  lemma {:induction false} CartLineKeys(rows: seq<RecipeIngredient>, ingredients: seq<Ingredient>, carts: seq<CartEntry>, user: Id)
    requires IngredientsUnique(ingredients)
    ensures LineKeys(CartLines(rows, ingredients, carts, user)) == CartKeys(rows, ingredients, carts, user)
  {
    if rows != [] {
      var ri := rows[0];
      var tail := rows[1..];
      CartLineKeys(tail, ingredients, carts, user);
      var here := match IngredientById(ingredients, ri.ingredient)
        case None => []
        case Some(i) => Repeat(Line(i.name, i.measurementUnit, ri.amount), multiset(carts)[CartEntry(user, ri.recipe)]);
      assert CartLines(rows, ingredients, carts, user) == here + CartLines(tail, ingredients, carts, user);
      LineKeysConcat(here, CartLines(tail, ingredients, carts, user));
      var mine := set i | i in ingredients && i.id == ri.ingredient && CartEntry(user, ri.recipe) in carts
        :: (i.name, i.measurementUnit);
      assert LineKeys(here) == mine by {
        forall i | i in ingredients && i.id == ri.ingredient ensures IngredientById(ingredients, ri.ingredient) == Some(i) {
          IngredientByIdFinds(ingredients, i);
        }
        if CartEntry(user, ri.recipe) in carts {
          assert multiset(carts)[CartEntry(user, ri.recipe)] > 0;
        }
      }
      assert forall r :: r in rows <==> r == ri || r in tail by {
        assert rows == [ri] + tail;
      }
    }
  }

  /** `Sum('amount')` over the lines of one (name, unit) group. */
  function SumFor(lines: seq<Line>, name: string, unit: string): nat
  {
    if lines == [] then 0
    else
      var last := lines[|lines| - 1];
      SumFor(lines[..|lines| - 1], name, unit) + (if last.name == name && last.unit == unit then last.amount else 0)
  }

  function LineKeys(lines: seq<Line>): set<(string, string)>
  {
    set l | l in lines :: (l.name, l.unit)
  }

  function GroupKeys(gs: seq<Group>): set<(string, string)>
  {
    set g | g in gs :: (g.name, g.unit)
  }

  /** No two groups share a (name, unit) pair. */
  predicate DistinctKeys(gs: seq<Group>)
  {
    forall i, j :: 0 <= i < j < |gs| ==> gs[i].name != gs[j].name || gs[i].unit != gs[j].unit
  }

  /** The total of the group for (name, unit), or 0 when there is none. */
  function TotalIn(gs: seq<Group>, name: string, unit: string): nat
  {
    if gs == [] then 0
    else if gs[0].name == name && gs[0].unit == unit then gs[0].total
    else TotalIn(gs[1..], name, unit)
  }

  lemma {:induction false} TotalInAt(gs: seq<Group>, k: nat)
    requires DistinctKeys(gs) && k < |gs|
    ensures TotalIn(gs, gs[k].name, gs[k].unit) == gs[k].total
  {
    if k > 0 {
      assert gs[0].name != gs[k].name || gs[0].unit != gs[k].unit;
      DistinctTail(gs);
      TotalInAt(gs[1..], k - 1);
    }
  }

  lemma DistinctTail(gs: seq<Group>)
    requires DistinctKeys(gs) && gs != []
    ensures DistinctKeys(gs[1..])
  {
    forall i, j | 0 <= i < j < |gs[1..]|
      ensures gs[1..][i].name != gs[1..][j].name || gs[1..][i].unit != gs[1..][j].unit
    {
      assert gs[1..][i] == gs[i + 1] && gs[1..][j] == gs[j + 1];
    }
  }

  /** Fold one line into the groups: add to its group, or open a new group at the end. */
  function AddLine(gs: seq<Group>, l: Line): seq<Group>
  {
    if gs == [] then [Group(l.name, l.unit, l.amount)]
    else if gs[0].name == l.name && gs[0].unit == l.unit then [gs[0].(total := gs[0].total + l.amount)] + gs[1..]
    else [gs[0]] + AddLine(gs[1..], l)
  }

  lemma {:induction false} AddLineTotal(gs: seq<Group>, l: Line, name: string, unit: string)
    ensures TotalIn(AddLine(gs, l), name, unit)
         == TotalIn(gs, name, unit) + (if name == l.name && unit == l.unit then l.amount else 0)
  {
    if gs != [] {
      var r := AddLine(gs, l);
      if gs[0].name == l.name && gs[0].unit == l.unit {
        assert r[1..] == gs[1..];
      } else {
        assert r[1..] == AddLine(gs[1..], l);
        AddLineTotal(gs[1..], l, name, unit);
      }
    }
  }

  lemma {:induction false} AddLineKeys(gs: seq<Group>, l: Line)
    ensures GroupKeys(AddLine(gs, l)) == GroupKeys(gs) + {(l.name, l.unit)}
    ensures |AddLine(gs, l)| > 0
  {
    if gs != [] {
      var r := AddLine(gs, l);
      assert gs == [gs[0]] + gs[1..];
      GroupKeysConcat([gs[0]], gs[1..]);
      if gs[0].name == l.name && gs[0].unit == l.unit {
        assert r == [r[0]] + gs[1..];
        GroupKeysConcat([r[0]], gs[1..]);
      } else {
        AddLineKeys(gs[1..], l);
        assert r == [gs[0]] + AddLine(gs[1..], l);
        GroupKeysConcat([gs[0]], AddLine(gs[1..], l));
      }
    }
  }

  lemma GroupKeysConcat(a: seq<Group>, b: seq<Group>)
    ensures GroupKeys(a + b) == GroupKeys(a) + GroupKeys(b)
  {
    assert forall g :: g in a + b <==> g in a || g in b;
  }

  lemma {:induction false} AddLineDistinct(gs: seq<Group>, l: Line)
    requires DistinctKeys(gs)
    ensures DistinctKeys(AddLine(gs, l))
  {
    if gs != [] {
      var r := AddLine(gs, l);
      DistinctTail(gs);
      if gs[0].name == l.name && gs[0].unit == l.unit {
        assert forall j :: 0 < j < |r| ==> r[j] == gs[j];
      } else {
        var head := gs[0];
        var rest := AddLine(gs[1..], l);
        AddLineDistinct(gs[1..], l);
        AddLineKeys(gs[1..], l);
        assert r == [head] + rest;
        forall j | 0 < j < |r| ensures r[j].name != head.name || r[j].unit != head.unit {
          assert r[j] == rest[j - 1];
          assert (r[j].name, r[j].unit) in GroupKeys(rest);
          if (r[j].name, r[j].unit) != (l.name, l.unit) {
            var g :| g in gs[1..] && (g.name, g.unit) == (r[j].name, r[j].unit);
            var k :| 0 <= k < |gs[1..]| && gs[1..][k] == g;
            assert gs[k + 1] == g;
          }
        }
      }
    }
  }

  /**
   The `GROUP BY` of the joined lines, groups in order of first appearance
   (one admissible order: the query names none).
   */
  function Grouped(lines: seq<Line>): (r: seq<Group>)
    ensures DistinctKeys(r)
    ensures GroupKeys(r) == LineKeys(lines)
  {
    if lines == [] then []
    else
      var init := lines[..|lines| - 1];
      var last := lines[|lines| - 1];
      AddLineDistinct(Grouped(init), last);
      AddLineKeys(Grouped(init), last);
      assert lines == init + [last];
      LineKeysConcat(init, [last]);
      AddLine(Grouped(init), last)
  }

  /** Each (name, unit) total of the grouping is that pair's sum over the lines. */
  lemma {:induction false} GroupedSums(lines: seq<Line>)
    ensures forall name, unit :: TotalIn(Grouped(lines), name, unit) == SumFor(lines, name, unit)
  {
    if lines != [] {
      var init := lines[..|lines| - 1];
      var last := lines[|lines| - 1];
      GroupedSums(init);
      forall name, unit
        ensures TotalIn(Grouped(lines), name, unit) == SumFor(lines, name, unit)
      {
        AddLineTotal(Grouped(init), last, name, unit);
      }
    }
  }

  /**
   The grouped query has exactly one row per distinct (name, unit) among the
   joined lines, and each row's `amount_sum` is the sum of that pair's amounts.
   */
  lemma GroupedTotals(lines: seq<Line>)
    ensures DistinctKeys(Grouped(lines))
    ensures GroupKeys(Grouped(lines)) == LineKeys(lines)
    ensures forall k :: 0 <= k < |Grouped(lines)| ==>
      Grouped(lines)[k].total == SumFor(lines, Grouped(lines)[k].name, Grouped(lines)[k].unit)
  {
    var gs := Grouped(lines);
    GroupedSums(lines);
    forall k | 0 <= k < |gs| ensures gs[k].total == SumFor(lines, gs[k].name, gs[k].unit) {
      TotalInAt(gs, k);
    }
  }

  lemma {:induction false} SumForConcat(a: seq<Line>, b: seq<Line>, name: string, unit: string)
    ensures SumFor(a + b, name, unit) == SumFor(a, name, unit) + SumFor(b, name, unit)
    decreases |b|
  {
    if b == [] {
      assert a + b == a;
    } else {
      var init := b[..|b| - 1];
      assert (a + b)[..|a + b| - 1] == a + init;
      assert (a + b)[|a + b| - 1] == b[|b| - 1];
      SumForConcat(a, init, name, unit);
    }
  }

  lemma {:induction false} SumForRepeat(l: Line, n: nat, name: string, unit: string)
    ensures SumFor(Repeat(l, n), name, unit) == if l.name == name && l.unit == unit then n * l.amount else 0
  {
    if n > 0 {
      SumForRepeat(l, n - 1, name, unit);
      assert Repeat(l, n) == [l] + Repeat(l, n - 1);
      SumForConcat([l], Repeat(l, n - 1), name, unit);
      assert SumFor([l], name, unit) == SumFor([], name, unit) + (if l.name == name && l.unit == unit then l.amount else 0) by {
        assert [l][..0] == [];
      }
    }
  }

  /**
   What the cart contributes to one (name, unit) group: each ingredient row
   with that name and unit, times the number of the caller's cart entries
   for its recipe.
   */
  function CartWeightedSum(rows: seq<RecipeIngredient>, ingredients: seq<Ingredient>, carts: seq<CartEntry>,
                           user: Id, name: string, unit: string): nat
  {
    if rows == [] then 0
    else
      var ri := rows[0];
      var here := match IngredientById(ingredients, ri.ingredient)
        case None => 0
        case Some(i) =>
          if i.name == name && i.measurementUnit == unit then ri.amount * multiset(carts)[CartEntry(user, ri.recipe)] else 0;
      here + CartWeightedSum(rows[1..], ingredients, carts, user, name, unit)
  }

  /** Each ingredient row is counted once per matching cart entry. */
  lemma {:induction false} CartLinesSum(rows: seq<RecipeIngredient>, ingredients: seq<Ingredient>, carts: seq<CartEntry>,
                                        user: Id, name: string, unit: string)
    ensures SumFor(CartLines(rows, ingredients, carts, user), name, unit) == CartWeightedSum(rows, ingredients, carts, user, name, unit)
  {
    if rows != [] {
      var ri := rows[0];
      CartLinesSum(rows[1..], ingredients, carts, user, name, unit);
      match IngredientById(ingredients, ri.ingredient)
      case None =>
        assert CartLines(rows, ingredients, carts, user) == [] + CartLines(rows[1..], ingredients, carts, user);
        assert [] + CartLines(rows[1..], ingredients, carts, user) == CartLines(rows[1..], ingredients, carts, user);
      case Some(i) =>
        var l := Line(i.name, i.measurementUnit, ri.amount);
        var n := multiset(carts)[CartEntry(user, ri.recipe)];
        SumForConcat(Repeat(l, n), CartLines(rows[1..], ingredients, carts, user), name, unit);
        SumForRepeat(l, n, name, unit);
    }
  }

  /** A caller with no cart entry joins no ingredient row. */
  lemma {:induction false} EmptyCartNoLines(rows: seq<RecipeIngredient>, ingredients: seq<Ingredient>, carts: seq<CartEntry>, user: Id)
    requires forall e :: e in carts ==> e.user != user
    ensures CartLines(rows, ingredients, carts, user) == []
  {
    if rows != [] {
      EmptyCartNoLines(rows[1..], ingredients, carts, user);
      assert CartEntry(user, rows[0].recipe) !in carts;
      assert multiset(carts)[CartEntry(user, rows[0].recipe)] == 0;
    }
  }

  /** With an empty cart the download is the header line alone. */
  lemma EmptyCartGivesHeader(rows: seq<RecipeIngredient>, ingredients: seq<Ingredient>, carts: seq<CartEntry>, user: Id)
    requires forall e :: e in carts ==> e.user != user
    ensures HEADER + Joined(Grouped(CartLines(rows, ingredients, carts, user))) == HEADER
  {
    EmptyCartNoLines(rows, ingredients, carts, user);
    assert HEADER + "" == HEADER;
  }

  function DigitChar(d: nat): (c: char)
    requires d < 10
    ensures '0' <= c <= '9'
  {
    (48 + d) as char
  }

  /** Python's `str` of a non-negative integer: decimal digits, no leading zero. */
  function NatToString(n: nat): (s: string)
    ensures |s| >= 1
    ensures forall i :: 0 <= i < |s| ==> '0' <= s[i] <= '9'
    ensures |s| > 1 ==> s[0] != '0'
  {
    if n < 10 then [DigitChar(n)]
    else
      var prefix := NatToString(n / 10);
      assert n / 10 >= 1;
      assert |prefix| == 1 ==> prefix[0] != '0';
      prefix + [DigitChar(n % 10)]
  }

  /** The number a string of decimal digits denotes. */
  function DigitsValue(s: string): nat
    requires forall i :: 0 <= i < |s| ==> '0' <= s[i] <= '9'
  {
    if s == [] then 0
    else
      DigitsValue(s[..|s| - 1]) * 10 + (s[|s| - 1] as int - 48)
  }

  /** Reading the rendered amount back gives the amount. */
  lemma {:induction false} NatToStringRoundTrip(n: nat)
    ensures DigitsValue(NatToString(n)) == n
  {
    if n >= 10 {
      NatToStringRoundTrip(n / 10);
      var s := NatToString(n);
      assert s[..|s| - 1] == NatToString(n / 10);
    }
  }

  /** One entry: `"\n{name} - {amount_sum} {measurement_unit}"`. */
  function EntryText(g: Group): string
  {
    "\n" + g.name + " - " + NatToString(g.total) + " " + g.unit
  }

  /** Besides its opening line break, only an entry's name and unit can contribute one. */
  lemma EntryLineBreaks(g: Group)
    ensures CountChar(EntryText(g), '\n') == 1 + CountChar(g.name, '\n') + CountChar(g.unit, '\n')
  {
    var digits := NatToString(g.total);
    CountCharConcat("\n" + g.name + " - " + digits + " ", g.unit, '\n');
    CountCharConcat("\n" + g.name + " - " + digits, " ", '\n');
    CountCharConcat("\n" + g.name + " - ", digits, '\n');
    CountCharConcat("\n" + g.name, " - ", '\n');
    CountCharConcat("\n", g.name, '\n');
    CountCharAbsent(digits, '\n');
    CountCharAbsent(" - ", '\n');
    CountCharAbsent(" ", '\n');
  }

  /** The entries, with `", "` between consecutive entries and none after the last. */
  function Joined(gs: seq<Group>): string
  {
    if |gs| == 0 then ""
    else if |gs| == 1 then EntryText(gs[0])
    else EntryText(gs[0]) + ", " + Joined(gs[1..])
  }

  lemma {:induction false} JoinedSnoc(gs: seq<Group>, g: Group)
    requires |gs| > 0
    ensures Joined(gs + [g]) == Joined(gs) + ", " + EntryText(g)
  {
    if |gs| == 1 {
      assert (gs + [g])[1..] == [g];
    } else {
      assert (gs + [g])[1..] == gs[1..] + [g];
      JoinedSnoc(gs[1..], g);
    }
  }

  /** What the loop has appended after `num` entries: those entries joined, and `", "` if more follow. */
  function Rendered(gs: seq<Group>, num: nat): string
    requires num <= |gs|
  {
    Joined(gs[..num]) + (if 0 < num < |gs| then ", " else "")
  }

  /** One more iteration appends the next entry, then `", "` unless it was the last. */
  lemma RenderedStep(gs: seq<Group>, num: nat)
    requires num < |gs|
    ensures Rendered(gs, num + 1) == Rendered(gs, num) + EntryText(gs[num]) + (if num < |gs| - 1 then ", " else "")
  {
    assert gs[..num + 1] == gs[..num] + [gs[num]];
    if num > 0 {
      JoinedSnoc(gs[..num], gs[num]);
    } else {
      assert gs[..1] == [gs[0]];
    }
  }

  /**
   The loop of `download_shopping_cart`: append each entry, and `", "` after
   every entry whose index is below the group count minus one.
   */
  method RenderShoppingList(gs: seq<Group>) returns (text: string)
    ensures text == HEADER + Joined(gs)
  {
    text := HEADER;
    for num := 0 to |gs|
      invariant text == HEADER + Rendered(gs, num)
    {
      RenderedStep(gs, num);
      text := text + EntryText(gs[num]);
      if num < |gs| - 1 {
        text := text + ", ";
      }
    }
    assert gs[..|gs|] == gs;
  }

  function CountChar(s: string, c: char): nat
  {
    if s == [] then 0 else (if s[0] == c then 1 else 0) + CountChar(s[1..], c)
  }

  lemma {:induction false} CountCharConcat(a: string, b: string, c: char)
    ensures CountChar(a + b, c) == CountChar(a, c) + CountChar(b, c)
  {
    if a == [] {
      assert a + b == b;
    } else {
      assert (a + b)[1..] == a[1..] + b;
      CountCharConcat(a[1..], b, c);
    }
  }

  lemma {:induction false} CountCharAbsent(s: string, c: char)
    requires c !in s
    ensures CountChar(s, c) == 0
  {
    if s != [] {
      assert s[0] != c;
      assert forall x :: x in s[1..] ==> x in s;
      CountCharAbsent(s[1..], c);
    }
  }

  /**
   When no ingredient name or unit contains a line break, the text has
   exactly one line per group below the header line.
   */
  lemma {:induction false} OneLinePerGroup(gs: seq<Group>)
    requires forall g :: g in gs ==> '\n' !in g.name && '\n' !in g.unit
    ensures CountChar(HEADER + Joined(gs), '\n') == |gs|
  {
    JoinedLineBreaks(gs);
    CountCharConcat(HEADER, Joined(gs), '\n');
    HeaderHasNoLineBreak();
  }

  lemma HeaderHasNoLineBreak()
    ensures CountChar(HEADER, '\n') == 0
  {
    assert forall i :: 0 <= i < |HEADER| ==> HEADER[i] != '\n';
    CountCharAbsent(HEADER, '\n');
  }

  lemma {:induction false} JoinedLineBreaks(gs: seq<Group>)
    requires forall g :: g in gs ==> '\n' !in g.name && '\n' !in g.unit
    ensures CountChar(Joined(gs), '\n') == |gs|
  {
    if |gs| > 0 {
      var g := gs[0];
      EntryLineBreaks(g);
      CountCharAbsent(g.name, '\n');
      CountCharAbsent(g.unit, '\n');
      assert CountChar(EntryText(g), '\n') == 1;
      if |gs| > 1 {
        assert forall x :: x in gs[1..] ==> x in gs;
        JoinedLineBreaks(gs[1..]);
        CountCharConcat(EntryText(g) + ", ", Joined(gs[1..]), '\n');
        CountCharConcat(EntryText(g), ", ", '\n');
        CountCharAbsent(", ", '\n');
      }
    }
  }
}
