/**
 * Where cell sites go inside a latitude/longitude rectangle: the hexagonal
 * lattice with its linear and simple-grid fallbacks, rings around the centre,
 * and points around the perimeter. Coordinates are exact reals; the square
 * root behind the inter-site distance and the cosine behind the aspect ratio
 * are inputs, and sine and cosine of ring angles are function parameters.
 */
module Placement {
  import opened Common

  /** A (latitude, longitude) pair. */
  type Point = (real, real)

  datatype Rect = Rect(minLat: real, maxLat: real, minLon: real, maxLon: real) {
    predicate Valid() { minLat <= maxLat && minLon <= maxLon }
    predicate Contains(p: Point) { minLat <= p.0 <= maxLat && minLon <= p.1 <= maxLon }
    function CenterLat(): real { (minLat + maxLat) / 2.0 }
    function CenterLon(): real { (minLon + maxLon) / 2.0 }
  }

  const SQRT3: real := 1.7320508075688772
  const PI: real := 3.141592653589793
  /** Above this aspect ratio the area counts as a corridor. */
  const MAX_ASPECT_RATIO: real := 5.0
  /** Ring radii are this fraction of a ring's share of the range. */
  const RING_SCALE: real := 0.4

  /** Python's `s[:n]`. */
  function Prefix<T>(s: seq<T>, n: nat): (r: seq<T>)
    ensures |r| == Min(n, |s|) && forall k :: 0 <= k < |r| ==> r[k] == s[k]
  {
    if |s| <= n then s else s[..n]
  }

  // ---------------------------------------------------------------------------
  // Arithmetic helpers

  /** A fraction i/m of a non-negative length d lies between 0 and d. */
  lemma FractionBound(d: real, i: nat, m: nat)
    requires d >= 0.0 && 0 < m && i <= m
    ensures 0.0 <= d * (i as real) / (m as real) <= d
  {
    var t := (i as real) / (m as real);
    assert 0.0 <= t <= 1.0;
    assert d * (i as real) / (m as real) == d * t;
    assert d * t <= d * 1.0;
  }

  lemma MulMono(a: nat, b: nat, c: nat)
    requires a <= b
    ensures a * c <= b * c
  {
  }

  /** Row-major index i*g + j splits back into row i and column j. */
  lemma DivModRowMajor(i: nat, j: nat, g: nat)
    requires j < g
    ensures (i * g + j) / g == i && (i * g + j) % g == j
  {
    var k := i * g + j;
    var q, r := k / g, k % g;
    assert k == q * g + r;
    assert (q - i) * g == j - r;
    if q > i {
      MulMono(1, q - i, g);
    } else if q < i {
      MulMono(1, i - q, g);
    }
  }

  lemma DivBelow(k: nat, g: nat, h: nat)
    requires g > 0 && k < h * g
    ensures k / g < h
  {
    var q := k / g;
    assert k == q * g + k % g;
    if q >= h {
      MulMono(h, q, g);
    }
  }

  /** Stepping x by one unit lowers x/unit by one. */
  lemma StepDiv(x: real, unit: real)
    requires unit > 0.0
    ensures (x - unit) / unit == x / unit - 1.0
  {
    var q, a := x / unit, (x - unit) / unit;
    assert q * unit == x && a * unit == x - unit;
    var d := a - (q - 1.0);
    assert d * unit == 0.0;
    if d > 0.0 {
      assert false;
    } else if d < 0.0 {
      assert false;
    }
  }

  // ---------------------------------------------------------------------------
  // numpy's linspace and math.ceil(math.sqrt(n))

  /** Element i of `np.linspace(lo, hi, num)`, in exact arithmetic. */
  function LinspaceAt(lo: real, hi: real, num: nat, i: nat): real {
    if num == 1 then lo else lo + (hi - lo) * (i as real) / ((num - 1) as real)
  }

  function Linspace(lo: real, hi: real, num: nat): (r: seq<real>)
    ensures |r| == num && forall i :: 0 <= i < num ==> r[i] == LinspaceAt(lo, hi, num, i)
  {
    seq(num, i requires 0 <= i < num => LinspaceAt(lo, hi, num, i))
  }

  /** Linspace starts at lo, ends at hi and stays between them. */
  lemma LinspaceBounds(lo: real, hi: real, num: nat, i: nat)
    requires i < num
    ensures i == 0 ==> LinspaceAt(lo, hi, num, i) == lo
    ensures num >= 2 && i == num - 1 ==> LinspaceAt(lo, hi, num, i) == hi
    ensures lo <= hi ==> lo <= LinspaceAt(lo, hi, num, i) <= hi
  {
    if num > 1 {
      var m := (num - 1) as real;
      if i == num - 1 {
        assert (hi - lo) * (i as real) / m == hi - lo;
      }
      if lo <= hi {
        FractionBound(hi - lo, i, num - 1);
      }
    }
  }

  function CeilSqrtFrom(n: nat, g: nat): (r: nat)
    requires g == 0 || (g - 1) * (g - 1) < n
    ensures r * r >= n && (r == 0 || (r - 1) * (r - 1) < n)
    decreases n - g
  {
    if g * g >= n then g
    else
      assert g < n by {
        if g > 0 { MulMono(1, g, g); }
      }
      CeilSqrtFrom(n, g + 1)
  }

  /** `math.ceil(math.sqrt(n))`: the least g with g*g >= n. */
  function CeilSqrt(n: nat): (g: nat)
    ensures g * g >= n && (g == 0 || (g - 1) * (g - 1) < n)
  {
    CeilSqrtFrom(n, 0)
  }

  lemma CeilSqrtIs(n: nat, g: nat)
    requires g * g >= n && (g == 0 || (g - 1) * (g - 1) < n)
    ensures CeilSqrt(n) == g
  {
    var r := CeilSqrt(n);
    if r < g {
      MulMono(r, g - 1, r);
      MulMono(r, g - 1, g - 1);
    } else if r > g {
      MulMono(g, r - 1, g);
      MulMono(g, r - 1, r - 1);
    }
  }

  // ---------------------------------------------------------------------------
  // Linear placement for corridors

  /** Evenly spaced sites along the longer axis (in degrees), centred on the other. */
  function LinearLocations(rect: Rect, n: nat): (r: seq<Point>)
    ensures |r| == n
  {
    if rect.maxLat - rect.minLat > rect.maxLon - rect.minLon then
      var latPoints := Linspace(rect.minLat, rect.maxLat, n);
      seq(n, i requires 0 <= i < n => (latPoints[i], rect.CenterLon()))
    else
      var lonPoints := Linspace(rect.minLon, rect.maxLon, n);
      seq(n, i requires 0 <= i < n => (rect.CenterLat(), lonPoints[i]))
  }

  lemma LinearShape(rect: Rect, n: nat)
    ensures var r := LinearLocations(rect, n);
      && (rect.maxLat - rect.minLat > rect.maxLon - rect.minLon ==>
            forall i :: 0 <= i < n ==> r[i].1 == rect.CenterLon() && r[i].0 == LinspaceAt(rect.minLat, rect.maxLat, n, i))
      && (rect.maxLat - rect.minLat <= rect.maxLon - rect.minLon ==>
            forall i :: 0 <= i < n ==> r[i].0 == rect.CenterLat() && r[i].1 == LinspaceAt(rect.minLon, rect.maxLon, n, i))
      && (rect.Valid() ==> forall i :: 0 <= i < n ==> rect.Contains(r[i]))
  {
    var r := LinearLocations(rect, n);
    forall i | 0 <= i < n && rect.Valid() ensures rect.Contains(r[i]) {
      if rect.maxLat - rect.minLat > rect.maxLon - rect.minLon {
        LinspaceBounds(rect.minLat, rect.maxLat, n, i);
        assert r[i] == (Linspace(rect.minLat, rect.maxLat, n)[i], rect.CenterLon());
      } else {
        LinspaceBounds(rect.minLon, rect.maxLon, n, i);
        assert r[i] == (rect.CenterLat(), Linspace(rect.minLon, rect.maxLon, n)[i]);
      }
    }
  }

  // ---------------------------------------------------------------------------
  // The simple grid fallback

  /** Site k of a g-by-g grid read row by row. */
  function GridPoint(rect: Rect, g: nat, k: nat): Point
    requires g > 0
  {
    (LinspaceAt(rect.minLat, rect.maxLat, g, k / g), LinspaceAt(rect.minLon, rect.maxLon, g, k % g))
  }

  /** The first n sites of the ceil(sqrt n)-square grid, row by row. */
  function SimpleGridSpec(rect: Rect, n: nat): (r: seq<Point>)
    ensures |r| == n
  {
    var g := CeilSqrt(n);
    seq(n, k requires 0 <= k < n => GridPoint(rect, g, k))
  }

  lemma SimpleGridShape(rect: Rect, n: nat, k: nat)
    requires k < n
    ensures var g := CeilSqrt(n);
      && k / g < g
      && SimpleGridSpec(rect, n)[k] == (Linspace(rect.minLat, rect.maxLat, g)[k / g], Linspace(rect.minLon, rect.maxLon, g)[k % g])
      && (rect.Valid() ==> rect.Contains(SimpleGridSpec(rect, n)[k]))
  {
    var g := CeilSqrt(n);
    DivBelow(k, g, g);
    LinspaceBounds(rect.minLat, rect.maxLat, g, k / g);
    LinspaceBounds(rect.minLon, rect.maxLon, g, k % g);
  }

  method SimpleGrid(rect: Rect, n: nat) returns (locations: seq<Point>)
    ensures locations == SimpleGridSpec(rect, n)
  {
    var g := CeilSqrt(n);
    var latPoints := Linspace(rect.minLat, rect.maxLat, g);
    var lonPoints := Linspace(rect.minLon, rect.maxLon, g);
    locations := [];
    for i := 0 to g
      invariant |locations| == i * g && (i == 0 || i * g < n)
      invariant forall k :: 0 <= k < |locations| ==> locations[k] == GridPoint(rect, g, k)
    {
      for j := 0 to g
        invariant |locations| == i * g + j && (i * g + j < n || i * g + j == 0)
        invariant forall k :: 0 <= k < |locations| ==> locations[k] == GridPoint(rect, g, k)
      {
        DivModRowMajor(i, j, g);
        locations := locations + [(latPoints[i], lonPoints[j])];
        if |locations| >= n {
          break;
        }
      }
      assert |locations| >= n || |locations| == (i + 1) * g;
      if |locations| >= n {
        break;
      }
    }
    locations := Prefix(locations, n);
  }

  // ---------------------------------------------------------------------------
  // The hexagonal lattice

  function RowSpacing(isd: real): real { isd * SQRT3 / 2.0 }

  /** Lattice site (row, col): odd rows shift by half the inter-site distance. */
  function HexPoint(rect: Rect, isd: real, row: nat, col: nat): Point {
    (rect.minLat + RowSpacing(isd) / 2.0 + (row as real) * RowSpacing(isd),
     rect.minLon + (if row % 2 == 1 then isd / 2.0 else 0.0) + isd / 2.0 + (col as real) * isd)
  }

  predicate LexBefore(x: (nat, nat), y: (nat, nat)) {
    x.0 < y.0 || (x.0 == y.0 && x.1 < y.1)
  }

  /** The sites were visited row by row, left to right. */
  predicate RowMajor(cells: seq<(nat, nat)>) {
    forall a, b :: 0 <= a < b < |cells| ==> LexBefore(cells[a], cells[b])
  }

  /** What the lattice walk keeps true of the sites it has accepted. */
  predicate OnLattice(rect: Rect, isd: real, locations: seq<Point>, lattice: seq<(nat, nat)>) {
    && |lattice| == |locations|
    && RowMajor(lattice)
    && forall k :: 0 <= k < |locations| ==>
         locations[k] == HexPoint(rect, isd, lattice[k].0, lattice[k].1) && rect.Contains(locations[k])
  }

  /** Accepting one more lattice site that comes after all earlier ones keeps the walk on the lattice. */
  lemma OnLatticeSnoc(rect: Rect, isd: real, locations: seq<Point>, lattice: seq<(nat, nat)>, cell: (nat, nat))
    requires OnLattice(rect, isd, locations, lattice)
    requires forall k :: 0 <= k < |lattice| ==> LexBefore(lattice[k], cell)
    requires rect.Contains(HexPoint(rect, isd, cell.0, cell.1))
    ensures OnLattice(rect, isd, locations + [HexPoint(rect, isd, cell.0, cell.1)], lattice + [cell])
  {
    var ls, cs := locations + [HexPoint(rect, isd, cell.0, cell.1)], lattice + [cell];
    forall a, b | 0 <= a < b < |cs| ensures LexBefore(cs[a], cs[b]) {
      if b == |lattice| {
        assert cs[a] == lattice[a];
      } else {
        assert cs[a] == lattice[a] && cs[b] == lattice[b];
      }
    }
    forall k | 0 <= k < |ls|
      ensures ls[k] == HexPoint(rect, isd, cs[k].0, cs[k].1) && rect.Contains(ls[k])
    {
      if k < |locations| {
        assert ls[k] == locations[k] && cs[k] == lattice[k];
      }
    }
  }

  /** The first m lattice sites of a row, west to east. */
  function RowCells(row: nat, m: nat): (r: seq<(nat, nat)>)
    ensures |r| == m && forall c :: 0 <= c < m ==> r[c] == (row, c)
  {
    seq(m, c requires 0 <= c < m => (row, c))
  }

  /** Their positions. */
  function RowPoints(rect: Rect, isd: real, row: nat, m: nat): (r: seq<Point>)
    ensures |r| == m && forall c :: 0 <= c < m ==> r[c] == HexPoint(rect, isd, row, c)
  {
    seq(m, c requires 0 <= c < m => HexPoint(rect, isd, row, c))
  }

  /** Every lattice site inside the rectangle that comes before `bound` in row-major order was accepted. */
  ghost predicate CoveredBefore(rect: Rect, isd: real, lattice: seq<(nat, nat)>, bound: (nat, nat)) {
    forall r: nat, c: nat :: LexBefore((r, c), bound) && rect.Contains(HexPoint(rect, isd, r, c)) ==> (r, c) in lattice
  }

  /** Every lattice site inside the rectangle was accepted. */
  ghost predicate CoveredAll(rect: Rect, isd: real, lattice: seq<(nat, nat)>) {
    forall r: nat, c: nat :: rect.Contains(HexPoint(rect, isd, r, c)) ==> (r, c) in lattice
  }

  /**
   * The lattice walk's result: in-rectangle lattice sites in row-major order,
   * with none skipped, stopping after n. Fewer than n sites means the
   * rectangle holds no further lattice site.
   */
  ghost predicate HexWalk(rect: Rect, isd: real, n: nat, locations: seq<Point>, lattice: seq<(nat, nat)>) {
    && |locations| <= n
    && OnLattice(rect, isd, locations, lattice)
    && (|locations| < n ==> CoveredAll(rect, isd, lattice))
    && (0 < |locations| == n ==> CoveredBefore(rect, isd, lattice, lattice[n - 1]))
  }

  /** Sites further east in a row have larger longitudes. */
  lemma LonGrows(rect: Rect, isd: real, row: nat, m: nat, c: nat)
    requires isd > 0.0 && m <= c
    ensures HexPoint(rect, isd, row, m).1 <= HexPoint(rect, isd, row, c).1
  {
    assert (c as real) * isd == (m as real) * isd + ((c - m) as real) * isd;
  }

  /** Each row lies one row spacing north of the previous one. */
  lemma NextRowLat(rect: Rect, isd: real, row: nat)
    ensures HexPoint(rect, isd, row + 1, 0).0 == HexPoint(rect, isd, row, 0).0 + RowSpacing(isd)
  {
    assert ((row + 1) as real) * RowSpacing(isd) == (row as real) * RowSpacing(isd) + RowSpacing(isd);
  }

  /** Rows further north have larger latitudes. */
  lemma LatGrows(rect: Rect, isd: real, row: nat, r: nat, c: nat)
    requires isd > 0.0 && row <= r
    ensures HexPoint(rect, isd, row, 0).0 <= HexPoint(rect, isd, r, c).0
  {
    var rs := RowSpacing(isd);
    assert (r as real) * rs == (row as real) * rs + ((r - row) as real) * rs;
  }

  /** A row that ran past the eastern edge leaves nothing of that row uncovered. */
  lemma RowCovered(rect: Rect, isd: real, lattice: seq<(nat, nat)>, row: nat, m: nat)
    requires isd > 0.0 && CoveredBefore(rect, isd, lattice, (row, 0))
    requires HexPoint(rect, isd, row, m).1 > rect.maxLon
    ensures CoveredBefore(rect, isd, lattice + RowCells(row, m), (row + 1, 0))
  {
    var cells := RowCells(row, m);
    forall r: nat, c: nat | LexBefore((r, c), (row + 1, 0)) && rect.Contains(HexPoint(rect, isd, r, c))
      ensures (r, c) in lattice + cells
    {
      if r == row {
        if m <= c {
          LonGrows(rect, isd, row, m, c);
        }
        assert cells[c] == (r, c);
      } else {
        assert (r, c) in lattice;
      }
    }
  }

  /** A row cut short at n sites leaves nothing before its last site uncovered. */
  lemma RowPrefixCovered(rect: Rect, isd: real, lattice: seq<(nat, nat)>, row: nat, m: nat)
    requires 0 < m && CoveredBefore(rect, isd, lattice, (row, 0))
    ensures CoveredBefore(rect, isd, lattice + RowCells(row, m), (row, m - 1))
  {
    var cells := RowCells(row, m);
    forall r: nat, c: nat | LexBefore((r, c), (row, m - 1)) && rect.Contains(HexPoint(rect, isd, r, c))
      ensures (r, c) in lattice + cells
    {
      if r == row {
        assert cells[c] == (r, c);
      } else {
        assert (r, c) in lattice;
      }
    }
  }

  /** What one row of the walk adds to the coverage. */
  lemma RowStepCovered(rect: Rect, isd: real, n: nat, before: seq<(nat, nat)>, row: nat, m: nat)
    requires isd > 0.0 && |before| < n && |before| + m <= n && CoveredBefore(rect, isd, before, (row, 0))
    requires |before| + m == n || HexPoint(rect, isd, row, m).1 > rect.maxLon
    ensures var after := before + RowCells(row, m);
      && (|after| < n ==> CoveredBefore(rect, isd, after, (row + 1, 0)))
      && (|after| == n ==> CoveredBefore(rect, isd, after, after[n - 1]))
  {
    var after := before + RowCells(row, m);
    if |after| < n {
      RowCovered(rect, isd, before, row, m);
    } else {
      RowPrefixCovered(rect, isd, before, row, m);
      assert after[n - 1] == (row, m - 1);
    }
  }

  /** Once the rows have passed the northern edge, every inside site is covered. */
  lemma RowsCovered(rect: Rect, isd: real, lattice: seq<(nat, nat)>, row: nat)
    requires isd > 0.0 && CoveredBefore(rect, isd, lattice, (row, 0))
    requires HexPoint(rect, isd, row, 0).0 > rect.maxLat
    ensures CoveredAll(rect, isd, lattice)
  {
    forall r: nat, c: nat | rect.Contains(HexPoint(rect, isd, r, c)) ensures (r, c) in lattice {
      if row <= r {
        LatGrows(rect, isd, row, r, c);
      }
    }
  }

  /** How many more rows fit below `maxLat`, counting the one at `lat`. */
  function RowsLeft(maxLat: real, lat: real, rowSpacing: real): int
    requires rowSpacing > 0.0
  {
    ((maxLat - lat) / rowSpacing).Floor + 1
  }

  lemma RowsLeftStep(maxLat: real, lat: real, rowSpacing: real)
    requires rowSpacing > 0.0 && lat <= maxLat
    ensures 0 <= RowsLeft(maxLat, lat + rowSpacing, rowSpacing) < RowsLeft(maxLat, lat, rowSpacing)
  {
    StepDiv(maxLat - lat, rowSpacing);
    assert maxLat - (lat + rowSpacing) == maxLat - lat - rowSpacing;
  }

  /** Each column lies one inter-site distance east of the previous one. */
  lemma NextColLon(rect: Rect, isd: real, row: nat, col: nat)
    ensures HexPoint(rect, isd, row, col + 1).1 == HexPoint(rect, isd, row, col).1 + isd
  {
    assert ((col + 1) as real) * isd == (col as real) * isd + isd;
  }

  /** Accepting the site at column `col` extends the row by one. */
  lemma AcceptSite(rect: Rect, isd: real, row: nat, col: nat,
                   locations: seq<Point>, lattice: seq<(nat, nat)>, cur: seq<Point>, curLattice: seq<(nat, nat)>)
    requires rect.Contains(HexPoint(rect, isd, row, col))
    requires cur == locations + RowPoints(rect, isd, row, col) && curLattice == lattice + RowCells(row, col)
    requires OnLattice(rect, isd, cur, curLattice)
    requires forall k :: 0 <= k < |curLattice| ==> LexBefore(curLattice[k], (row, col))
    ensures cur + [HexPoint(rect, isd, row, col)] == locations + RowPoints(rect, isd, row, col + 1)
    ensures curLattice + [(row, col)] == lattice + RowCells(row, col + 1)
    ensures OnLattice(rect, isd, cur + [HexPoint(rect, isd, row, col)], curLattice + [(row, col)])
    ensures forall k :: 0 <= k < |curLattice| + 1 ==> LexBefore((curLattice + [(row, col)])[k], (row, col + 1))
  {
    OnLatticeSnoc(rect, isd, cur, curLattice, (row, col));
    assert RowPoints(rect, isd, row, col + 1) == RowPoints(rect, isd, row, col) + [HexPoint(rect, isd, row, col)];
    assert RowCells(row, col + 1) == RowCells(row, col) + [(row, col)];
  }

  /**
   * One row of the lattice walk: step east from column 0, accepting every
   * site, until the eastern edge or n sites.
   */
  method HexRow(rect: Rect, n: nat, isd: real, row: nat, lat: real, locations: seq<Point>, ghost lattice: seq<(nat, nat)>)
    returns (locations': seq<Point>, ghost lattice': seq<(nat, nat)>)
    requires isd > 0.0 && rect.minLat <= lat <= rect.maxLat && lat == HexPoint(rect, isd, row, 0).0
    requires |locations| <= n && OnLattice(rect, isd, locations, lattice)
    requires forall k :: 0 <= k < |lattice| ==> lattice[k].0 < row
    ensures |locations| <= |locations'| <= n
    ensures var m := |locations'| - |locations|;
      && locations' == locations + RowPoints(rect, isd, row, m)
      && lattice' == lattice + RowCells(row, m)
      && (|locations'| == n || HexPoint(rect, isd, row, m).1 > rect.maxLon)
    ensures OnLattice(rect, isd, locations', lattice')
    ensures forall k :: 0 <= k < |lattice'| ==> lattice'[k].0 <= row
  {
    locations', lattice' := locations, lattice;
    var lonStart := rect.minLon + (if row % 2 == 1 then isd / 2.0 else 0.0) + isd / 2.0;
    var lon := lonStart;
    ghost var col: nat := 0;
    while lon <= rect.maxLon && |locations'| < n
      invariant |locations'| == |locations| + col <= n
      invariant locations' == locations + RowPoints(rect, isd, row, col)
      invariant lattice' == lattice + RowCells(row, col)
      invariant lon == HexPoint(rect, isd, row, col).1 && lon >= rect.minLon
      invariant OnLattice(rect, isd, locations', lattice')
      invariant forall k :: 0 <= k < |lattice'| ==> LexBefore(lattice'[k], (row, col))
      decreases n - |locations'|
    {
      if rect.minLat <= lat <= rect.maxLat && rect.minLon <= lon <= rect.maxLon {
        assert (lat, lon) == HexPoint(rect, isd, row, col);
        AcceptSite(rect, isd, row, col, locations, lattice, locations', lattice');
        locations' := locations' + [(lat, lon)];
        lattice' := lattice' + [(row, col)];
      }
      NextColLon(rect, isd, row, col);
      lon := lon + isd;
      col := col + 1;
    }
  }

  /** The lattice walk, row by row from the south-west corner. */
  method HexLattice(rect: Rect, n: nat, isd: real) returns (locations: seq<Point>, ghost lattice: seq<(nat, nat)>)
    requires isd > 0.0
    ensures HexWalk(rect, isd, n, locations, lattice)
  {
    var rowSpacing := RowSpacing(isd);
    locations, lattice := [], [];
    var row: nat := 0;
    var lat := rect.minLat + rowSpacing / 2.0;
    while lat <= rect.maxLat && |locations| < n
      invariant |locations| <= n && OnLattice(rect, isd, locations, lattice)
      invariant lat == HexPoint(rect, isd, row, 0).0 && lat >= rect.minLat
      invariant forall k :: 0 <= k < |lattice| ==> lattice[k].0 < row
      invariant |locations| < n ==> CoveredBefore(rect, isd, lattice, (row, 0))
      invariant 0 < |locations| == n ==> CoveredBefore(rect, isd, lattice, lattice[n - 1])
      decreases RowsLeft(rect.maxLat, lat, rowSpacing)
    {
      ghost var before, size := lattice, |locations|;
      locations, lattice := HexRow(rect, n, isd, row, lat, locations, lattice);
      RowStepCovered(rect, isd, n, before, row, |locations| - size);
      NextRowLat(rect, isd, row);
      RowsLeftStep(rect.maxLat, lat, rowSpacing);
      lat := lat + rowSpacing;
      row := row + 1;
    }
    if |locations| < n {
      RowsCovered(rect, isd, lattice, row);
    }
  }

  /**
   * Grid placement: linear along a corridor, otherwise the hexagonal lattice
   * walk, falling back to the simple grid when the walk holds fewer than n
   * sites. The aspect ratio and the inter-site distance are computed by the
   * caller; `hex` and `lattice` are the walk.
   */
  method GridLocations(rect: Rect, n: nat, aspectRatio: real, isd: real)
    returns (locations: seq<Point>, ghost hex: seq<Point>, ghost lattice: seq<(nat, nat)>)
    requires isd > 0.0
    ensures |locations| == n
    ensures aspectRatio > MAX_ASPECT_RATIO ==> locations == LinearLocations(rect, n)
    ensures aspectRatio <= MAX_ASPECT_RATIO ==>
      && HexWalk(rect, isd, n, hex, lattice)
      && locations == (if |hex| < n then SimpleGridSpec(rect, n) else hex)
    ensures rect.Valid() ==> forall k :: 0 <= k < n ==> rect.Contains(locations[k])
  {
    hex, lattice := [], [];
    if aspectRatio > MAX_ASPECT_RATIO {
      LinearShape(rect, n);
      return LinearLocations(rect, n), hex, lattice;
    }
    var walk;
    walk, lattice := HexLattice(rect, n, isd);
    hex := walk;
    if |walk| < n {
      locations := SimpleGrid(rect, n);
      forall k | 0 <= k < n {
        SimpleGridShape(rect, n, k);
      }
      return;
    }
    locations := Prefix(walk, n);
    assert locations == walk;
  }

  // ---------------------------------------------------------------------------
  // Cluster placement

  /** `np.clip(x, lo, hi)`. */
  function Clip(x: real, lo: real, hi: real): (r: real)
    ensures lo <= hi ==> lo <= r <= hi
    ensures lo <= x <= hi ==> r == x
  {
    var up := if x < lo then lo else x;
    if up > hi then hi else up
  }

  function ClusterRings(n: nat): nat { CeilSqrt(n) }

  function ClusterPerRing(n: nat): nat {
    var rings := ClusterRings(n);
    if rings > 1 then n / rings else 0
  }

  /** How many sites cluster placement yields for n requested. */
  function ClusterCount(n: nat): (r: nat)
    ensures r <= n
    ensures n >= 1 ==> r >= 1
  {
    if n == 0 then 0 else Min(n, 1 + ClusterRings(n) * ClusterPerRing(n))
  }

  /** The radius of a ring along an axis of the given range. */
  function RingRadius(range: real, rings: nat, ring: nat): real {
    (range / ((rings + 1) as real)) * (ring as real) * RING_SCALE
  }

  /** The site at `angle` on the ring with the given radii, clipped into the rectangle. */
  function RingSite(rect: Rect, radiusLat: real, radiusLon: real, angle: real, sin: real -> real, cos: real -> real): (p: Point)
    ensures rect.Valid() ==> rect.Contains(p)
  {
    (Clip(rect.CenterLat() + radiusLat * sin(angle), rect.minLat, rect.maxLat),
     Clip(rect.CenterLon() + radiusLon * cos(angle), rect.minLon, rect.maxLon))
  }

  /** The full ring number `ring`, ClusterPerRing(n) sites at equal angles. */
  function Ring(rect: Rect, n: nat, sin: real -> real, cos: real -> real, ring: nat): (r: seq<Point>)
    ensures |r| == ClusterPerRing(n)
    ensures rect.Valid() ==> forall k :: 0 <= k < |r| ==> rect.Contains(r[k])
  {
    var rings, perRing := ClusterRings(n), ClusterPerRing(n);
    var radiusLat := RingRadius(rect.maxLat - rect.minLat, rings, ring);
    var radiusLon := RingRadius(rect.maxLon - rect.minLon, rings, ring);
    seq(perRing, j requires 0 <= j < perRing => RingSite(rect, radiusLat, radiusLon, LinspaceAt(0.0, 2.0 * PI, perRing + 1, j), sin, cos))
  }

  /** The centre followed by rings 1 .. upTo, before the cut at n. */
  function ClusterWalk(rect: Rect, n: nat, sin: real -> real, cos: real -> real, upTo: nat): (r: seq<Point>)
    ensures |r| >= 1 && r[0] == (rect.CenterLat(), rect.CenterLon())
  {
    if upTo == 0 then [(rect.CenterLat(), rect.CenterLon())]
    else ClusterWalk(rect, n, sin, cos, upTo - 1) + Ring(rect, n, sin, cos, upTo)
  }

  function ClusterSpec(rect: Rect, n: nat, sin: real -> real, cos: real -> real): seq<Point> {
    Prefix(ClusterWalk(rect, n, sin, cos, ClusterRings(n)), n)
  }

  lemma {:induction false} ClusterWalkLength(rect: Rect, n: nat, sin: real -> real, cos: real -> real, upTo: nat)
    ensures |ClusterWalk(rect, n, sin, cos, upTo)| == 1 + upTo * ClusterPerRing(n)
  {
    if upTo > 0 {
      ClusterWalkLength(rect, n, sin, cos, upTo - 1);
      assert (upTo - 1) * ClusterPerRing(n) + ClusterPerRing(n) == upTo * ClusterPerRing(n);
    }
  }

  lemma {:induction false} ClusterWalkInside(rect: Rect, n: nat, sin: real -> real, cos: real -> real, upTo: nat)
    requires rect.Valid()
    ensures forall k :: 0 <= k < |ClusterWalk(rect, n, sin, cos, upTo)| ==> rect.Contains(ClusterWalk(rect, n, sin, cos, upTo)[k])
  {
    if upTo > 0 {
      ClusterWalkInside(rect, n, sin, cos, upTo - 1);
    }
  }

  /** A shorter walk is a prefix of a longer one. */
  lemma {:induction false} ClusterWalkGrows(rect: Rect, n: nat, sin: real -> real, cos: real -> real, a: nat, b: nat)
    requires a <= b
    ensures var wa := ClusterWalk(rect, n, sin, cos, a);
      |wa| <= |ClusterWalk(rect, n, sin, cos, b)| && ClusterWalk(rect, n, sin, cos, b)[..|wa|] == wa
  {
    if a < b {
      ClusterWalkGrows(rect, n, sin, cos, a, b - 1);
    }
  }

  /**
   * The centre comes first, at most n sites come back (ClusterCount of
   * them) and, in a valid rectangle, every site lies inside it.
   */
  lemma ClusterShape(rect: Rect, n: nat, sin: real -> real, cos: real -> real)
    ensures var r := ClusterSpec(rect, n, sin, cos);
      && |r| == ClusterCount(n) <= n
      && (n >= 1 ==> r[0] == (rect.CenterLat(), rect.CenterLon()))
      && (rect.Valid() ==> forall k :: 0 <= k < |r| ==> rect.Contains(r[k]))
  {
    ClusterWalkLength(rect, n, sin, cos, ClusterRings(n));
    if rect.Valid() {
      ClusterWalkInside(rect, n, sin, cos, ClusterRings(n));
    }
    if n == 0 {
      assert ClusterRings(n) == 0;
    }
  }

  /** Ring sizes round down, so some requests come back short. */
  lemma ClusterFallsShort()
    ensures ClusterCount(1) == 1 && ClusterCount(4) == 4
    ensures ClusterCount(5) == 4 && ClusterCount(10) == 9
  {
    CeilSqrtIs(1, 1);
    CeilSqrtIs(4, 2);
    CeilSqrtIs(5, 3);
    CeilSqrtIs(10, 4);
  }

  /** More than one ring needs at least two sites. */
  lemma RingsNeedTwo(n: nat)
    requires ClusterPerRing(n) > 0
    ensures n >= 2
  {
    var g := ClusterRings(n);
    MulMono(1, g - 1, g - 1);
  }

  /** One ring of the cluster walk, stopping once n sites are placed. */
  method ClusterRing(rect: Rect, n: nat, sin: real -> real, cos: real -> real, ring: nat, locations: seq<Point>)
    returns (locations': seq<Point>)
    requires ring >= 1
    requires locations == ClusterWalk(rect, n, sin, cos, ring - 1) && (ring == 1 || |locations| < n) && |locations| <= n
    ensures locations' == Prefix(ClusterWalk(rect, n, sin, cos, ring), n)
  {
    var rings, perRing := ClusterRings(n), ClusterPerRing(n);
    if perRing > 0 {
      RingsNeedTwo(n);
    }
    ghost var whole := Ring(rect, n, sin, cos, ring);
    locations' := locations;
    var radiusLat := RingRadius(rect.maxLat - rect.minLat, rings, ring);
    var radiusLon := RingRadius(rect.maxLon - rect.minLon, rings, ring);
    var angles := Linspace(0.0, 2.0 * PI, perRing + 1)[..perRing];
    for j := 0 to |angles|
      invariant locations' == locations + whole[..j] && (j == 0 || |locations'| < n)
    {
      var site := RingSite(rect, radiusLat, radiusLon, angles[j], sin, cos);
      assert whole[..j + 1] == whole[..j] + [whole[j]];
      locations' := locations' + [site];
      if |locations'| >= n {
        assert locations' == (locations + whole)[..n];
        return;
      }
    }
    assert whole[..|angles|] == whole;
  }

  method Clusters(rect: Rect, n: nat, sin: real -> real, cos: real -> real) returns (locations: seq<Point>)
    ensures locations == ClusterSpec(rect, n, sin, cos)
  {
    locations := [];
    if n >= 1 {
      locations := [(rect.CenterLat(), rect.CenterLon())];
    }
    var rings := CeilSqrt(n);
    for ring := 1 to rings + 1
      invariant n == 0 ==> rings == 0 && locations == []
      invariant n >= 1 ==> locations == ClusterWalk(rect, n, sin, cos, ring - 1) && (ring == 1 || |locations| < n)
    {
      locations := ClusterRing(rect, n, sin, cos, ring, locations);
      if |locations| >= n {
        ClusterWalkGrows(rect, n, sin, cos, ring, rings);
        break;
      }
    }
    locations := Prefix(locations, n);
  }

  // ---------------------------------------------------------------------------
  // Boundary placement

  /** `math.ceil(n / 4)`. */
  function CeilDiv4(n: nat): nat { (n + 3) / 4 }

  /** The share `d * i / max(1, per_side - 1)` of an edge of length d at step i. */
  function EdgeStep(d: real, perSide: nat, i: nat): real {
    d * (i as real) / (Max(1, perSide - 1) as real)
  }

  lemma EdgeStepBound(d: real, perSide: nat, i: nat)
    requires d >= 0.0 && 1 < perSide && i < perSide
    ensures 0.0 <= EdgeStep(d, perSide, i) <= d
  {
    assert Max(1, perSide - 1) == perSide - 1;
    FractionBound(d, i, perSide - 1);
  }

  function TopLon(rect: Rect, perSide: nat, i: nat): real {
    if perSide > 1 then rect.minLon + EdgeStep(rect.maxLon - rect.minLon, perSide, i)
    else (rect.minLon + rect.maxLon) / 2.0
  }

  function RightLat(rect: Rect, perSide: nat, i: nat): real {
    if perSide > 1 then rect.maxLat - EdgeStep(rect.maxLat - rect.minLat, perSide, i)
    else (rect.minLat + rect.maxLat) / 2.0
  }

  function BottomLon(rect: Rect, perSide: nat, i: nat): real {
    if perSide > 1 then rect.maxLon - EdgeStep(rect.maxLon - rect.minLon, perSide, i)
    else (rect.minLon + rect.maxLon) / 2.0
  }

  function LeftLat(rect: Rect, perSide: nat, i: nat): real {
    if perSide > 1 then rect.minLat + EdgeStep(rect.maxLat - rect.minLat, perSide, i)
    else (rect.minLat + rect.maxLat) / 2.0
  }

  function TopEdge(rect: Rect, perSide: nat): seq<Point> {
    seq(perSide, i requires 0 <= i < perSide => (rect.maxLat, TopLon(rect, perSide, i)))
  }

  function RightEdge(rect: Rect, perSide: nat): seq<Point> {
    seq(perSide, i requires 0 <= i < perSide => (RightLat(rect, perSide, i), rect.maxLon))
  }

  function BottomEdge(rect: Rect, perSide: nat): seq<Point> {
    seq(perSide, i requires 0 <= i < perSide => (rect.minLat, BottomLon(rect, perSide, i)))
  }

  function LeftEdge(rect: Rect, perSide: nat): seq<Point> {
    seq(perSide, i requires 0 <= i < perSide => (LeftLat(rect, perSide, i), rect.minLon))
  }

  /** The perimeter walk: top, right, bottom, left, perSide points each. */
  function Perimeter(rect: Rect, perSide: nat): seq<Point> {
    TopEdge(rect, perSide) + RightEdge(rect, perSide) + BottomEdge(rect, perSide) + LeftEdge(rect, perSide)
  }

  function BoundarySpec(rect: Rect, n: nat): seq<Point> {
    Prefix(Perimeter(rect, CeilDiv4(n)), n)
  }

  /** Point k of the perimeter walk, edge by edge. */
  lemma PerimeterAt(rect: Rect, perSide: nat, k: nat)
    requires k < 4 * perSide
    ensures Perimeter(rect, perSide)[k] ==
      if k < perSide then (rect.maxLat, TopLon(rect, perSide, k))
      else if k < 2 * perSide then (RightLat(rect, perSide, k - perSide), rect.maxLon)
      else if k < 3 * perSide then (rect.minLat, BottomLon(rect, perSide, k - 2 * perSide))
      else (LeftLat(rect, perSide, k - 3 * perSide), rect.minLon)
  {
  }

  /** In a valid rectangle every edge coordinate stays within its side. */
  lemma EdgesInside(rect: Rect, perSide: nat, i: nat)
    requires rect.Valid() && i < perSide
    ensures rect.minLon <= TopLon(rect, perSide, i) <= rect.maxLon
    ensures rect.minLat <= RightLat(rect, perSide, i) <= rect.maxLat
    ensures rect.minLon <= BottomLon(rect, perSide, i) <= rect.maxLon
    ensures rect.minLat <= LeftLat(rect, perSide, i) <= rect.maxLat
  {
    if perSide > 1 {
      EdgeStepBound(rect.maxLon - rect.minLon, perSide, i);
      EdgeStepBound(rect.maxLat - rect.minLat, perSide, i);
    }
  }

  /**
   * The perimeter holds 4*ceil(n/4) >= n points, so exactly n come back;
   * each lies on its own edge and, in a valid rectangle, on the boundary.
   */
  lemma BoundaryShape(rect: Rect, n: nat)
    ensures var perSide := CeilDiv4(n);
      && |Perimeter(rect, perSide)| == 4 * perSide >= n
      && |BoundarySpec(rect, n)| == n
      && forall k :: 0 <= k < n ==>
           var p := BoundarySpec(rect, n)[k];
           && (k < perSide ==> p.0 == rect.maxLat)
           && (perSide <= k < 2 * perSide ==> p.1 == rect.maxLon)
           && (2 * perSide <= k < 3 * perSide ==> p.0 == rect.minLat)
           && (3 * perSide <= k ==> p.1 == rect.minLon)
           && (rect.Valid() ==> rect.Contains(p))
  {
    var perSide := CeilDiv4(n);
    var r := BoundarySpec(rect, n);
    assert |Perimeter(rect, perSide)| == 4 * perSide >= n;
    forall k | 0 <= k < n
      ensures var p := r[k];
           && (k < perSide ==> p.0 == rect.maxLat)
           && (perSide <= k < 2 * perSide ==> p.1 == rect.maxLon)
           && (2 * perSide <= k < 3 * perSide ==> p.0 == rect.minLat)
           && (3 * perSide <= k ==> p.1 == rect.minLon)
           && (rect.Valid() ==> rect.Contains(p))
    {
      PerimeterAt(rect, perSide, k);
      if rect.Valid() {
        if k < perSide {
          EdgesInside(rect, perSide, k);
        } else if k < 2 * perSide {
          EdgesInside(rect, perSide, k - perSide);
        } else if k < 3 * perSide {
          EdgesInside(rect, perSide, k - 2 * perSide);
        } else {
          EdgesInside(rect, perSide, k - 3 * perSide);
        }
      }
    }
  }

  method Boundary(rect: Rect, n: nat) returns (locations: seq<Point>)
    ensures locations == BoundarySpec(rect, n)
  {
    var perSide := CeilDiv4(n);
    var perimeter: seq<Point> := [];
    var top, right, bottom, left := TopEdge(rect, perSide), RightEdge(rect, perSide), BottomEdge(rect, perSide), LeftEdge(rect, perSide);
    for i := 0 to perSide
      invariant perimeter == top[..i]
    {
      assert top[..i + 1] == top[..i] + [top[i]];
      perimeter := perimeter + [(rect.maxLat, TopLon(rect, perSide, i))];
    }
    for i := 0 to perSide
      invariant perimeter == top + right[..i]
    {
      assert right[..i + 1] == right[..i] + [right[i]];
      perimeter := perimeter + [(RightLat(rect, perSide, i), rect.maxLon)];
    }
    for i := 0 to perSide
      invariant perimeter == top + right + bottom[..i]
    {
      assert bottom[..i + 1] == bottom[..i] + [bottom[i]];
      perimeter := perimeter + [(rect.minLat, BottomLon(rect, perSide, i))];
    }
    for i := 0 to perSide
      invariant perimeter == top + right + bottom + left[..i]
    {
      assert left[..i + 1] == left[..i] + [left[i]];
      perimeter := perimeter + [(LeftLat(rect, perSide, i), rect.minLon)];
    }
    locations := Prefix(perimeter, n);
  }
}
