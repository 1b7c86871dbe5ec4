/**
 * The page geometry computed at the start of `go` in index.js: one row per
 * `columns` cards, rounded up, plus one extra row (a fixed constant;
 * the source's own comment gives no reason for it).
 */
module Layout {

  /** Math.ceil on a real number. */
  function Ceil(x: real): (r: int)
    ensures r as real >= x && (r - 1) as real < x
  {
    -((-x).Floor)
  }

  /** Multiplying by a positive real keeps a strict order. */
  lemma MulRealStrict(a: real, b: real, c: real)
    requires c > 0.0 && a < b
    ensures a * c < b * c
  {
  }

  /** Multiplying by a non-negative integer keeps an order. */
  lemma MulMono(a: int, b: int, c: int)
    requires c >= 0 && a <= b
    ensures a * c <= b * c
  {
    var d := b - a;
    assert b * c == a * c + d * c;
  }

  /**
   * `Math.ceil(cards.length / args.columns) + 1`: the division is the
   * real one, then rounded up. Its meaning: one more than the fewest rows
   * of `columns` cards that hold `n` cards.
   */
  function Rows(n: nat, columns: int): (rows: int)
    requires columns > 0
    ensures rows >= 1
    ensures (rows - 1) * columns >= n
    ensures rows >= 2 ==> (rows - 2) * columns < n
  {
    var r := Ceil(n as real / columns as real);
    CeilOfQuotient(n, columns, r);
    r + 1
  }

  /** The ceiling of n / columns, back in integers: r rows hold n cards, r - 1 do not. */
  lemma CeilOfQuotient(n: nat, columns: int, r: int)
    requires columns > 0 && r == Ceil(n as real / columns as real)
    ensures r * columns >= n && (r - 1) * columns < n
  {
    AtLeastQuotient(n, columns, r);
    BelowQuotient(n, columns, r - 1);
  }

  /** An integer at or above n / columns, times columns, reaches n. */
  lemma AtLeastQuotient(n: nat, columns: int, r: int)
    requires columns > 0 && r as real >= n as real / columns as real
    ensures r * columns >= n
  {
    var c := columns as real;
    var q := n as real / c;
    assert q * c == n as real;
    MulRealMono(q, r as real, c);
    IntProductAsReal(r, columns);
  }

  /** An integer below n / columns, times columns, stays below n. */
  lemma BelowQuotient(n: nat, columns: int, r: int)
    requires columns > 0 && (r as real) < n as real / columns as real
    ensures r * columns < n
  {
    var c := columns as real;
    var q := n as real / c;
    assert q * c == n as real;
    MulRealStrict(r as real, q, c);
    IntProductAsReal(r, columns);
  }

  /** Integer products agree with real products. */
  lemma IntProductAsReal(a: int, b: int)
    ensures (a * b) as real == a as real * b as real
  {
  }

  /** Multiplying by a positive real keeps an order. */
  lemma MulRealMono(a: real, b: real, c: real)
    requires c > 0.0 && a <= b
    ensures a * c <= b * c
  {
  }

  /** The page geometry of the scope: rows, page width and page height. */
  datatype Geometry = Geometry(rows: int, pageWidth: real, pageHeight: real)

  /**
   * `pageHeight: rows * height` and `pageWidth: args.columns * args.card_width`
   * together with the rows above.
   */
  function PageGeometry(n: nat, columns: int, cardWidth: real, cardHeight: real): (g: Geometry)
    requires columns > 0
    ensures g.rows >= 1 && (g.rows - 1) * columns >= n
    ensures g.rows >= 2 ==> (g.rows - 2) * columns < n
    ensures g.pageWidth == columns as real * cardWidth
    ensures g.pageHeight == g.rows as real * cardHeight
  {
    var rows := Rows(n, columns);
    Geometry(rows, columns as real * cardWidth, rows as real * cardHeight)
  }

  /** The rows are determined by their defining inequalities. */
  lemma RowsUnique(n: nat, columns: int, fewest: int)
    requires columns > 0 && fewest >= 0
    requires fewest * columns >= n && (fewest >= 1 ==> (fewest - 1) * columns < n)
    ensures Rows(n, columns) == fewest + 1
  {
    var r := Rows(n, columns) - 1;
    if r < fewest {
      MulMono(r, fewest - 1, columns);
    } else if r > fewest {
      MulMono(fewest, r - 1, columns);
    }
  }

  /** The row count is exactly the integer ceiling of n / columns, plus one. */
  lemma RowsIsCeilingPlusOne(n: nat, columns: int)
    requires columns > 0
    ensures Rows(n, columns) == (n + columns - 1) / columns + 1
  {
    var m := n + columns - 1;
    var q := m / columns;
    assert m == q * columns + m % columns;
    assert (q - 1) * columns == q * columns - columns;
    RowsUnique(n, columns, q);
  }

  /** An empty deck still gets one row. */
  lemma EmptyDeckOneRow(columns: int)
    requires columns > 0
    ensures Rows(0, columns) == 1
  {
    RowsIsCeilingPlusOne(0, columns);
  }

  /** A full extra set of `columns` cards adds exactly one row. */
  lemma RowsStep(n: nat, columns: int)
    requires columns > 0
    ensures Rows(n + columns, columns) == Rows(n, columns) + 1
  {
    var r := Rows(n, columns);
    assert r * columns == (r - 1) * columns + columns;
    assert (r - 1) >= 1 ==> (r - 2) * columns + columns == (r - 1) * columns;
    RowsUnique(n + columns, columns, r);
  }

  /** More cards never mean fewer rows. */
  lemma RowsMonotone(n1: nat, n2: nat, columns: int)
    requires columns > 0 && n1 <= n2
    ensures Rows(n1, columns) <= Rows(n2, columns)
  {
    var r1, r2 := Rows(n1, columns), Rows(n2, columns);
    if r2 < r1 {
      MulMono(r2 - 1, r1 - 2, columns);
    }
  }

  /**
   * A deck that fills its rows exactly still gets the extra row: with
   * m rows' worth of cards, there are m + 1 rows.
   */
  lemma ExactFillHasExtraRow(m: nat, columns: int)
    requires columns > 0
    ensures Rows(m * columns, columns) == m + 1
  {
    assert (m - 1) * columns == m * columns - columns;
    RowsUnique(m * columns, columns, m);
  }

  /** Three cards, ten columns and the default 2.5 x 3.5 card: two rows, 25 wide, 7 high. */
  lemma DefaultExample()
    ensures PageGeometry(3, 10, 2.5, 3.5) == Geometry(2, 25.0, 7.0)
  {
    RowsIsCeilingPlusOne(3, 10);
  }

  /** Ten cards in ten columns give two rows; eleven give three. */
  lemma RowsExamples()
    ensures Rows(10, 10) == 2 && Rows(11, 10) == 3
  {
    RowsIsCeilingPlusOne(10, 10);
    RowsIsCeilingPlusOne(11, 10);
  }
}
