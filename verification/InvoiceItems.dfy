/** Invoice lines: validation, half-up rounding of each line and a bounded total. */
module InvoiceItems {
  import opened Text
  import opened Decimal

  const MAX_TOTAL: int := 1_000_000_000_000
  const MAX_INT64: int := 0x7FFF_FFFF_FFFF_FFFF

  datatype Item = Item(description: string, quantity: string, unitPrice: int, lineTotal: int)

  datatype Fault = BadDescription | BadQuantity | QuantityOutOfRange | PriceOutOfRange | TotalTooLarge

  datatype Outcome = Accepted(items: seq<Item>, total: int) | WrongCount | Refused(row: nat, fault: Fault)

  /** A quantity cell in millionths, if it has the form of a quantity. */
  function Amount(quantity: string): Option<nat> {
    if IsQuantity(TrimSpace(quantity)) then Some(Scaled(TrimSpace(quantity))) else None
  }

  /** What is wrong with one item by itself, in the order of the checks. */
  function OwnFault(item: Item): Option<Fault> {
    if TrimSpace(item.description) == "" || |TrimSpace(item.description)| > 500 then Some(BadDescription)
    else if Amount(item.quantity).None? then Some(BadQuantity)
    else if Amount(item.quantity).value == 0 || Amount(item.quantity).value > MAX_SCALED then Some(QuantityOutOfRange)
    else if item.unitPrice < 0 || item.unitPrice > MAX_TOTAL then Some(PriceOutOfRange)
    else None
  }

  /** Millionths times cents, in cents, rounded half up. */
  function Rounded(scaled: nat, price: nat): nat {
    (scaled * price + SCALE / 2) / SCALE
  }

  /** What an item adds to the total; nothing if it is faulty. */
  function Line(item: Item): nat {
    if OwnFault(item).Some? then 0 else Rounded(Amount(item.quantity).value, item.unitPrice)
  }

  function Clean(item: Item): Item
    requires OwnFault(item).None?
  {
    Item(TrimSpace(item.description), Print(Amount(item.quantity).value), item.unitPrice, Line(item))
  }

  predicate Sound(items: seq<Item>) {
    forall item | item in items :: OwnFault(item).None?
  }

  function Total(items: seq<Item>): nat {
    SumOf(Line, items)
  }

  function CleanAll(items: seq<Item>): seq<Item>
    requires Sound(items)
  {
    seq(|items|, i requires 0 <= i < |items| => Clean(items[i]))
  }

  /** What the items promise, without any reference to their order of checking. */
  ghost predicate Acceptable(items: seq<Item>) {
    1 <= |items| <= 100 && Sound(items) && Total(items) <= MAX_TOTAL
  }

  /** The row is the first that is faulty by itself or carries the total over the maximum. */
  ghost predicate FaultyAt(items: seq<Item>, row: nat, fault: Fault) {
    && row < |items| && Sound(items[..row]) && Total(items[..row]) <= MAX_TOTAL
    && if OwnFault(items[row]).Some? then fault == OwnFault(items[row]).value
       else fault == TotalTooLarge && Total(items[..row]) + Line(items[row]) > MAX_TOTAL
  }

  // ---------- rounding ----------

  /** The rounded amount is within half a cent of the exact product, a tie going up, and fits a 64-bit integer. */
  lemma LineIsNearest(scaled: nat, price: nat)
    requires scaled <= MAX_SCALED && price <= MAX_TOTAL
    ensures -(SCALE as int) < 2 * (SCALE * Rounded(scaled, price) - scaled * price) <= SCALE
    ensures Rounded(scaled, price) <= MAX_INT64
  {
    ProductBound(scaled, price, MAX_SCALED, MAX_TOTAL);
  }

  lemma ProductBound(a: nat, b: nat, c: nat, d: nat)
    requires a <= c && b <= d
    ensures a * b <= c * d
  {
    assert a * b <= c * b <= c * d;
  }

  // ---------- totals ----------

  function SumOf<T>(f: T -> nat, items: seq<T>): nat {
    if items == [] then 0 else f(items[0]) + SumOf(f, items[1..])
  }

  lemma {:induction false} SumOfAppend<T>(f: T -> nat, items: seq<T>, item: T)
    ensures SumOf(f, items + [item]) == SumOf(f, items) + f(item)
  {
    if items != [] {
      SumOfAppend(f, items[1..], item);
      assert (items + [item])[1..] == items[1..] + [item];
    }
  }

  lemma {:induction false} SumWithout<T>(f: T -> nat, items: seq<T>, i: nat)
    requires i < |items|
    ensures SumOf(f, items) == f(items[i]) + SumOf(f, items[..i] + items[i + 1..])
  {
    var rest := items[..i] + items[i + 1..];
    if i == 0 {
      assert rest == items[1..];
    } else {
      SumWithout(f, items[1..], i - 1);
      assert items[1..][..i - 1] + items[1..][i - 1 + 1..] == rest[1..];
    }
  }

  lemma {:induction false} SumOfPrefix<T>(f: T -> nat, items: seq<T>, n: nat)
    requires n <= |items|
    ensures SumOf(f, items[..n]) <= SumOf(f, items)
  {
    if n > 0 {
      SumOfPrefix(f, items[1..], n - 1);
      assert items[..n][1..] == items[1..][..n - 1];
    }
  }

  lemma RestsMatch<T>(a: seq<T>, b: seq<T>, i: nat)
    requires a != [] && i < |b| && b[i] == a[0] && multiset(a) == multiset(b)
    ensures multiset(a[1..]) == multiset(b[..i] + b[i + 1..])
  {
    assert a == [a[0]] + a[1..];
    assert b == b[..i] + [b[i]] + b[i + 1..];
    assert multiset(b[..i] + b[i + 1..]) == multiset(b) - multiset{a[0]} == multiset(a[1..]);
  }

  lemma {:induction false} SumIgnoresOrder<T>(f: T -> nat, a: seq<T>, b: seq<T>)
    requires multiset(a) == multiset(b)
    ensures SumOf(f, a) == SumOf(f, b)
  {
    if a == [] {
      assert |b| == |multiset(b)| == 0;
    } else {
      assert a[0] in multiset(a) && a[0] in multiset(b);
      var i :| 0 <= i < |b| && b[i] == a[0];
      var rest := b[..i] + b[i + 1..];
      RestsMatch(a, b, i);
      SumWithout(f, b, i);
      SumIgnoresOrder(f, a[1..], rest);
    }
  }

  /** The total and whether the items are accepted do not depend on the order of the items. */
  lemma OrderDoesNotMatter(a: seq<Item>, b: seq<Item>)
    requires multiset(a) == multiset(b)
    ensures Total(a) == Total(b)
    ensures Acceptable(a) <==> Acceptable(b)
  {
    SumIgnoresOrder(Line, a, b);
    assert |a| == |multiset(a)| == |multiset(b)| == |b|;
    forall item
      ensures item in a <==> item in b
    {
      assert item in a <==> item in multiset(a);
      assert item in b <==> item in multiset(b);
    }
  }

  // ---------- stability ----------

  lemma CleanIsStable(item: Item)
    requires OwnFault(item).None?
    ensures OwnFault(Clean(item)).None? && Clean(Clean(item)) == Clean(item) && Line(Clean(item)) == Line(item)
  {
    hide Amount, Print, TrimSpace, Rounded;
    PrintedAmount(Amount(item.quantity).value);
    TrimIsStable(TrimSpace(item.description));
  }

  lemma PrintedAmount(n: nat)
    requires 1 <= n <= MAX_SCALED
    ensures Amount(Print(n)) == Some(n)
  {
    PrintThenRead(n);
    QuantitiesAreTrimmed(Print(n));
  }

  lemma QuantitiesAreTrimmed(q: string)
    requires IsQuantity(q)
    ensures TrimSpace(q) == q
  {
    var p := Point(q);
    assert IsDigit(q[..p][0]) && q[0] == q[..p][0];
    var last := if p == |q| then q[..p][p - 1] else q[p + 1..][|q| - p - 2];
    assert IsDigit(last) && q[|q| - 1] == last;
    TrimIsStable(q);
  }

  lemma {:induction false} SameSum<T>(f: T -> nat, a: seq<T>, b: seq<T>)
    requires |a| == |b| && forall i | 0 <= i < |a| :: f(a[i]) == f(b[i])
    ensures SumOf(f, a) == SumOf(f, b)
  {
    if a != [] {
      SameSum(f, a[1..], b[1..]);
    }
  }

  /** Normalizing what normalizing returned changes nothing. */
  lemma NormalizedIsStable(items: seq<Item>)
    requires Sound(items)
    ensures Sound(CleanAll(items)) && CleanAll(CleanAll(items)) == CleanAll(items)
            && Total(CleanAll(items)) == Total(items)
    ensures Acceptable(CleanAll(items)) <==> Acceptable(items)
  {
    var cleaned := CleanAll(items);
    forall i | 0 <= i < |items|
      ensures OwnFault(cleaned[i]).None? && Clean(cleaned[i]) == cleaned[i] && Line(cleaned[i]) == Line(items[i])
    {
      assert items[i] in items;
      CleanIsStable(items[i]);
    }
    SameSum(Line, cleaned, items);
  }

  function Legacy(language: string, total: int): seq<Item> {
    [Item(if language == "sk" then "Ubytovanie" else "Accommodation", "1", total, total)]
  }

  /** The single line of an old invoice is accepted, and left as it is, exactly for totals in range. */
  lemma LegacyIsNormal(language: string, total: int)
    ensures Acceptable(Legacy(language, total)) <==> 0 <= total <= MAX_TOTAL
    ensures 0 <= total <= MAX_TOTAL ==>
              CleanAll(Legacy(language, total)) == Legacy(language, total) && Total(Legacy(language, total)) == total
  {
    hide OwnFault, Clean, Line;
    var items := Legacy(language, total);
    LegacyItem(items[0].description, total);
    assert items[0] in items;
    if 0 <= total <= MAX_TOTAL {
      assert SumOf(Line, items[1..]) == 0;
    }
  }

  lemma LegacyItem(description: string, total: int)
    requires description == "Ubytovanie" || description == "Accommodation"
    ensures var item := Item(description, "1", total, total);
            && (OwnFault(item).None? <==> 0 <= total <= MAX_TOTAL)
            && (0 <= total <= MAX_TOTAL ==> Clean(item) == item && Line(item) == total)
  {
    hide Amount, Rounded, TrimSpace, Print;
    OneIsWhole();
    TrimIsStable(description);
    if 0 <= total <= MAX_TOTAL {
      WholeIsExact(total);
    }
  }

  lemma OneIsWhole()
    ensures Print(SCALE) == "1" && Amount("1") == Some(SCALE)
  {
    assert Print(SCALE) == "1";
    PrintedAmount(SCALE);
  }

  lemma WholeIsExact(price: nat)
    ensures Rounded(SCALE, price) == price
  {
  }

  // ---------- the loop ----------

  lemma SoundLine(item: Item)
    requires OwnFault(item).None?
    ensures Amount(item.quantity).Some? && 0 <= item.unitPrice
    ensures Line(item) == Rounded(Amount(item.quantity).value, item.unitPrice) <= MAX_INT64
  {
    hide Amount, TrimSpace, Rounded;
    LineIsNearest(Amount(item.quantity).value, item.unitPrice);
  }

  /**
   * What an accepted item has become: its price and, but for white space, its description are kept; its quantity is the
   * same, written canonically; and its line total is the exact product within half a cent, a tie going up.
   */
  ghost predicate Bills(item: Item, out: Item) {
    && out.unitPrice == item.unitPrice >= 0 && IsTrimmed(item.description, out.description)
    && Amount(item.quantity).Some? && Amount(out.quantity) == Amount(item.quantity)
    && (exists whole, fraction :: Spells(out.quantity, whole, fraction) && Canonical(whole, fraction))
    && var exact := Amount(item.quantity).value * out.unitPrice;
       2 * exact - SCALE < 2 * SCALE * out.lineTotal <= 2 * exact + SCALE
  }

  lemma CleanBills(item: Item)
    requires OwnFault(item).None?
    ensures Bills(item, Clean(item))
  {
    hide Amount, Print, TrimSpace, IsTrimmed, Spells, Canonical;
    var n := Amount(item.quantity).value;
    TrimTrims(item.description);
    PrintedAmount(n);
    var whole, fraction := PrintIsCanonical(n);
    LineIsNearest(n, item.unitPrice);
  }

  /** What the line totals add up to. */
  function LineTotals(items: seq<Item>): int {
    if items == [] then 0 else items[0].lineTotal + LineTotals(items[1..])
  }

  lemma {:induction false} CleanedTotals(items: seq<Item>)
    requires Sound(items)
    ensures LineTotals(CleanAll(items)) == Total(items)
  {
    hide OwnFault, Line;
    if items != [] {
      assert items[0] in items && forall item | item in items[1..] :: item in items;
      assert CleanAll(items)[1..] == CleanAll(items[1..]);
      CleanedTotals(items[1..]);
    }
  }

  /** What an item must satisfy by itself. */
  lemma FaultlessExactly(item: Item)
    ensures OwnFault(item).None? <==>
              && 1 <= |TrimSpace(item.description)| <= 500 && Amount(item.quantity).Some?
              && 1 <= Amount(item.quantity).value <= 1_000_000 * 1_000_000 && 0 <= item.unitPrice <= 1_000_000_000_000
  {
    hide Amount, TrimSpace;
  }

  /** A cell is a quantity if, without white space on either side, it is spelled as one; it is worth its digits. */
  lemma AmountIsValue(quantity: string)
    ensures Amount(quantity).Some? <==> exists whole, fraction :: Spells(TrimSpace(quantity), whole, fraction)
    ensures forall whole, fraction | Spells(TrimSpace(quantity), whole, fraction) ::
              Amount(quantity) == Some(Value(whole) * SCALE + Value(fraction) * Power(6 - |fraction|))
  {
    hide TrimSpace, Scaled, IsQuantity;
    QuantityIsSpelled(TrimSpace(quantity));
    forall whole, fraction | Spells(TrimSpace(quantity), whole, fraction)
      ensures Amount(quantity) == Some(Value(whole) * SCALE + Value(fraction) * Power(6 - |fraction|))
    {
      SpelledIsRead(TrimSpace(quantity), whole, fraction);
    }
  }

  /** The first thing wrong with an item, in the order of the checks. */
  lemma FaultIsFirst(item: Item)
    ensures OwnFault(item) == Some(BadDescription) <==> !(1 <= |TrimSpace(item.description)| <= 500)
    ensures OwnFault(item) == Some(BadQuantity) ==>
              1 <= |TrimSpace(item.description)| <= 500 && Amount(item.quantity).None?
    ensures OwnFault(item) == Some(QuantityOutOfRange) ==>
              1 <= |TrimSpace(item.description)| <= 500 && Amount(item.quantity).Some?
              && !(1 <= Amount(item.quantity).value <= MAX_SCALED)
    ensures OwnFault(item) == Some(PriceOutOfRange) ==>
              1 <= |TrimSpace(item.description)| <= 500 && Amount(item.quantity).Some?
              && 1 <= Amount(item.quantity).value <= MAX_SCALED && !(0 <= item.unitPrice <= MAX_TOTAL)
    ensures OwnFault(item) != Some(TotalTooLarge)
  {
    hide Amount, TrimSpace;
  }

  method Normalize(items: seq<Item>) returns (r: Outcome)
    ensures r.Accepted? <==> Acceptable(items)
    ensures r.Accepted? ==> r.items == CleanAll(items) && r.total == Total(items)
    ensures r.Accepted? ==>
              && |r.items| == |items| && (forall i | 0 <= i < |items| :: Bills(items[i], r.items[i]))
              && LineTotals(r.items) == r.total && 0 <= r.total <= 1_000_000_000_000
    ensures r.WrongCount? <==> !(1 <= |items| <= 100)
    ensures r.Refused? ==> FaultyAt(items, r.row, r.fault)
  {
    hide Amount, Print, TrimSpace, Rounded, OwnFault, Bills;
    if |items| < 1 || |items| > 100 {
      return WrongCount;
    }
    var out := new Item[|items|](i requires 0 <= i < |items| => items[i]);
    var total: int := 0;
    for i := 0 to |items|
      invariant Sound(items[..i]) && total == Total(items[..i]) && total <= MAX_TOTAL
      invariant forall k | 0 <= k < i :: out[k] == Clean(items[k])
    {
      var fault := OwnFault(items[i]);
      if fault.Some? {
        return Refused(i, fault.value);
      }
      assert items[..i + 1] == items[..i] + [items[i]];
      SumOfAppend(Line, items[..i], items[i]);
      SoundLine(items[i]);
      var product := Rounded(Amount(items[i].quantity).value, items[i].unitPrice);
      if product > MAX_INT64 || product > MAX_TOTAL - total {
        SumOfPrefix(Line, items, i + 1);
        return Refused(i, TotalTooLarge);
      }
      out[i] := Clean(items[i]);
      total := total + product;
    }
    assert items[..|items|] == items;
    assert out[..] == CleanAll(items);
    CleanedTotals(items);
    forall i | 0 <= i < |items|
      ensures Bills(items[i], out[i])
    {
      assert items[i] in items;
      CleanBills(items[i]);
    }
    return Accepted(out[..], total);
  }
}
