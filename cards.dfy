/**
 * The card expander of index.js (the `reduce` over the deck's card
 * definitions): every definition is tagged with its own type, has its
 * description run through the variable substitution when a variables
 * context is given, and is pushed `count || 1` times onto the output list.
 */
module Cards {
  import opened Wrappers

  /** The variables context handed to the substitution (`args.variables`). */
  type Vars = map<string, string>

  /**
   * A card definition, and equally an expanded card: the source mutates
   * the definition object in place and pushes that same object, so both
   * have one shape. `count` and `description` may be absent; `typeFlags` (the source's `is`) is the
   * type-flag map; `fields` are the other display fields, passed through.
   */
  datatype Card = Card(
    cardType: string,
    count: Option<int>,
    description: Option<string>,
    typeFlags: map<string, bool>,
    fields: map<string, string>)

  /** JavaScript truthiness of an optional string: present and non-empty. */
  predicate Truthy(s: Option<string>) {
    s.Some? && s.value != ""
  }

  /** The loop bound `card.count || 1`: an absent or zero count reads as 1. */
  function CountBound(d: Card): (b: int)
    ensures b != 0
    ensures d.count.Some? && d.count.value != 0 ==> b == d.count.value
    ensures d.count.None? || d.count.value == 0 ==> b == 1
  {
    if d.count.None? || d.count.value == 0 then 1 else d.count.value
  }

  /**
   * How many times `for (i = 1; i <= count; i++)` pushes the card: the
   * bound when it is positive, one when the count is absent or zero, none
   * when it is negative.
   */
  function Copies(d: Card): (n: nat)
    ensures n == 0 <==> CountBound(d) < 0
    ensures d.count.None? || d.count.value == 0 ==> n == 1
    ensures d.count.Some? && d.count.value > 0 ==> n == d.count.value
    ensures d.count.Some? && d.count.value < 0 ==> n == 0
  {
    if CountBound(d) < 0 then 0 else CountBound(d)
  }

  /**
   * One definition after the body of the reducer: `typeFlags` is reset to the
   * single entry `is[type] = true`, and a truthy description is replaced
   * by its substitution when a variables context is present.
   */
  function Normalize(d: Card, vars: Option<Vars>, subst: (string, Vars) -> string): (c: Card)
    ensures c.typeFlags.Keys == {d.cardType} && c.typeFlags[d.cardType]
    ensures c.cardType == d.cardType && c.count == d.count && c.fields == d.fields
    ensures vars.Some? && Truthy(d.description) ==>
              c.description == Some(subst(d.description.value, vars.value))
    ensures vars.None? || !Truthy(d.description) ==> c.description == d.description
  {
    var description :=
      if vars.Some? && Truthy(d.description)
      then Some(subst(d.description.value, vars.value))
      else d.description;
    d.(typeFlags := map[d.cardType := true], description := description)
  }

  /** `n` copies of `c`. */
  function Replicate(c: Card, n: nat): (r: seq<Card>)
    ensures |r| == n
    ensures forall j :: 0 <= j < n ==> r[j] == c
  {
    if n == 0 then [] else Replicate(c, n - 1) + [c]
  }

  /**
   * The reduce, left to right: the expansion of all definitions but the
   * last, followed by the last one's copies.
   */
  function Expanded(defs: seq<Card>, vars: Option<Vars>, subst: (string, Vars) -> string): seq<Card>
  {
    if defs == [] then []
    else
      var last := defs[|defs| - 1];
      Expanded(defs[..|defs| - 1], vars, subst) + Replicate(Normalize(last, vars, subst), Copies(last))
  }

  /** Total number of copies pushed for `defs`. */
  function TotalCopies(defs: seq<Card>): nat
  {
    if defs == [] then 0 else TotalCopies(defs[..|defs| - 1]) + Copies(defs[|defs| - 1])
  }

  /** The reducer of index.js: the accumulator `list` grows by pushes. */
  method ExpandDeck(defs: seq<Card>, vars: Option<Vars>, subst: (string, Vars) -> string)
    returns (list: seq<Card>)
    ensures list == Expanded(defs, vars, subst)
    ensures |list| == TotalCopies(defs)
  {
    list := [];
    var k := 0;
    while k < |defs|
      invariant 0 <= k <= |defs|
      invariant list == Expanded(defs[..k], vars, subst)
    {
      var card := Normalize(defs[k], vars, subst);
      var count := CountBound(defs[k]);
      var i := 1;
      while i <= count
        invariant 1 <= i && (count >= 0 ==> i <= count + 1) && (count < 0 ==> i == 1)
        invariant list == Expanded(defs[..k], vars, subst) + Replicate(card, i - 1)
      {
        list := list + [card];
        i := i + 1;
      }
      assert i - 1 == Copies(defs[k]);
      assert defs[..k + 1][..k] == defs[..k];
      k := k + 1;
    }
    assert defs[..k] == defs;
    ExpandedLength(defs, vars, subst);
  }

  /** The expanded list is as long as the sum of the copy counts. */
  lemma {:induction false} ExpandedLength(defs: seq<Card>, vars: Option<Vars>, subst: (string, Vars) -> string)
    ensures |Expanded(defs, vars, subst)| == TotalCopies(defs)
  {
    if defs != [] {
      ExpandedLength(defs[..|defs| - 1], vars, subst);
    }
  }

  /** Where definition `k`'s copies start in the expanded list. */
  function Offset(defs: seq<Card>, k: nat): nat
    requires k <= |defs|
  {
    TotalCopies(defs[..k])
  }

  /** Offsets never decrease and never pass the total. */
  lemma {:induction false} OffsetBounds(defs: seq<Card>, k: nat)
    requires k < |defs|
    ensures Offset(defs, k) + Copies(defs[k]) == Offset(defs, k + 1)
    ensures Offset(defs, k + 1) <= TotalCopies(defs)
    decreases |defs|
  {
    assert defs[..k + 1][..k] == defs[..k];
    if k + 1 < |defs| {
      var init := defs[..|defs| - 1];
      assert init[..k + 1] == defs[..k + 1];
      assert init[..k] == defs[..k];
      OffsetBounds(init, k);
    } else {
      assert defs[..k + 1] == defs;
    }
  }

  /**
   * Contiguity and order: the copies of definition `k` sit at positions
   * Offset(k) .. Offset(k) + Copies(k) - 1, and each is the normalised
   * definition `k`.
   */
  lemma {:induction false} ExpandedAt(defs: seq<Card>, vars: Option<Vars>, subst: (string, Vars) -> string, k: nat, j: nat)
    requires k < |defs| && j < Copies(defs[k])
    ensures Offset(defs, k) + j < |Expanded(defs, vars, subst)|
    ensures Expanded(defs, vars, subst)[Offset(defs, k) + j] == Normalize(defs[k], vars, subst)
    decreases |defs|
  {
    var init := defs[..|defs| - 1];
    ExpandedLength(init, vars, subst);
    if k + 1 < |defs| {
      assert init[..k] == defs[..k];
      assert init[k] == defs[k];
      ExpandedAt(init, vars, subst, k, j);
    } else {
      assert init == defs[..k];
    }
  }

  /**
   * Every expanded card is the normalised form of some definition, with
   * its index range: nothing else appears in the list.
   */
  lemma {:induction false} ExpandedOrigin(defs: seq<Card>, vars: Option<Vars>, subst: (string, Vars) -> string, i: nat)
    requires i < |Expanded(defs, vars, subst)|
    ensures exists k :: 0 <= k < |defs| && Offset(defs, k) <= i < Offset(defs, k) + Copies(defs[k])
                        && Expanded(defs, vars, subst)[i] == Normalize(defs[k], vars, subst)
    decreases |defs|
  {
    var init := defs[..|defs| - 1];
    var k := |defs| - 1;
    ExpandedLength(init, vars, subst);
    assert init == defs[..k];
    if i < |Expanded(init, vars, subst)| {
      ExpandedOrigin(init, vars, subst, i);
      var k' :| 0 <= k' < |init| && Offset(init, k') <= i < Offset(init, k') + Copies(init[k'])
                && Expanded(init, vars, subst)[i] == Normalize(init[k'], vars, subst);
      assert init[..k'] == defs[..k'];
      assert init[k'] == defs[k'];
    } else {
      assert Offset(defs, k) <= i < Offset(defs, k) + Copies(defs[k]);
    }
  }

  /** Every expanded card carries exactly one type flag, its own type set true. */
  lemma TypeFlagsExact(defs: seq<Card>, vars: Option<Vars>, subst: (string, Vars) -> string, i: nat)
    requires i < |Expanded(defs, vars, subst)|
    ensures Expanded(defs, vars, subst)[i].typeFlags == map[Expanded(defs, vars, subst)[i].cardType := true]
  {
    ExpandedOrigin(defs, vars, subst, i);
  }

  /**
   * All copies of one definition are equal, and so carry one description:
   * the substituted one when a context and a truthy description are
   * present, the original otherwise.
   */
  lemma ReplicasShareDescription(defs: seq<Card>, vars: Option<Vars>, subst: (string, Vars) -> string, k: nat, j1: nat, j2: nat)
    requires k < |defs| && j1 < Copies(defs[k]) && j2 < Copies(defs[k])
    ensures Offset(defs, k) + j1 < |Expanded(defs, vars, subst)|
    ensures Offset(defs, k) + j2 < |Expanded(defs, vars, subst)|
    ensures Expanded(defs, vars, subst)[Offset(defs, k) + j1] == Expanded(defs, vars, subst)[Offset(defs, k) + j2]
    ensures Expanded(defs, vars, subst)[Offset(defs, k) + j1].description ==
              if vars.Some? && Truthy(defs[k].description)
              then Some(subst(defs[k].description.value, vars.value))
              else defs[k].description
  {
    ExpandedAt(defs, vars, subst, k, j1);
    ExpandedAt(defs, vars, subst, k, j2);
  }

  /**
   * A two-definition example deck: a "unit" card
   * with count 2 and a templated description, and a "spell" card whose
   * description has no placeholder (it is still passed through the
   * substitution, which leaves it as it is).
   */
  lemma ExampleDeck(subst: (string, Vars) -> string)
    requires subst("Hello {{name}}", map["name" := "Rex"]) == "Hello Rex"
    requires subst("Static", map["name" := "Rex"]) == "Static"
    ensures var out := Expanded([Card("unit", Some(2), Some("Hello {{name}}"), map[], map[]),
                                 Card("spell", Some(1), Some("Static"), map[], map[])],
                                Some(map["name" := "Rex"]), subst);
            |out| == 3
            && out[0].description == out[1].description == Some("Hello Rex")
            && out[0].typeFlags == out[1].typeFlags == map["unit" := true]
            && out[2].description == Some("Static") && out[2].typeFlags == map["spell" := true]
  {
    var unit := Card("unit", Some(2), Some("Hello {{name}}"), map[], map[]);
    var spell := Card("spell", Some(1), Some("Static"), map[], map[]);
    var defs := [unit, spell];
    assert defs[..1] == [unit];
    assert [unit][..0] == [];
  }
}
