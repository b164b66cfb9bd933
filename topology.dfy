/**
 * Cell topology from topology parameters: how many sites a request needs,
 * which placement places them, and the cell records emitted site by site
 * until the requested number of cells is reached.
 */
module Topology {
  import opened Common
  import opened Placement

  /** A whole-degree azimuth as `np.random.randint(0, 360)` draws it. */
  type Degree = d: int | 0 <= d < 360

  /** The parameters the topology chain produces; the free-text reasoning is left out. */
  datatype TopologyParams = TopologyParams(
    numCells: int,
    cellCarrierFreqMhz: int,
    azimuthStrategy: string,
    cellPlacementStrategy: string)

  /** One row of the topology table. */
  datatype Cell = Cell(cellLat: real, cellLon: real, cellId: string, cellAzDeg: int, cellCarrierFreqMhz: int)

  const SECTOR_AZIMUTHS: seq<int> := [0, 120, 240]

  predicate Sectored(p: TopologyParams) { p.azimuthStrategy == "sectored" }

  function SectorsPerSite(p: TopologyParams): (r: nat)
    ensures r == 1 || r == 3
  {
    if Sectored(p) then 3 else 1
  }

  /** `num_cells` counts sectors, so a sectored request needs a third as many sites. */
  function NumSites(p: TopologyParams): int {
    if Sectored(p) then Max(1, p.numCells / 3) else p.numCells
  }

  /** What the site count comes to, strategy by strategy. */
  lemma SiteCount(p: TopologyParams)
    requires p.numCells >= 1
    ensures NumSites(p) >= 1
    ensures !Sectored(p) ==> NumSites(p) == p.numCells
    ensures Sectored(p) && p.numCells < 3 ==> NumSites(p) == 1
    ensures Sectored(p) && p.numCells >= 3 ==> 3 * NumSites(p) <= p.numCells < 3 * NumSites(p) + 3
  {
  }

  /** The azimuths of one site; `draw` stands for that site's random draw. */
  function AzimuthsFor(p: TopologyParams, draw: Degree): (r: seq<int>)
    ensures |r| == SectorsPerSite(p)
  {
    if Sectored(p) then SECTOR_AZIMUTHS
    else if p.azimuthStrategy == "random" then [draw]
    else [0]
  }

  // ---------------------------------------------------------------------------
  // Cell ids

  function DigitChar(d: nat): char
    requires d < 10
  {
    ('0' as int + d) as char
  }

  /** Python's `str` of a non-negative int. */
  function Decimal(n: nat): (s: string)
    ensures |s| >= 1 && (n < 10 <==> |s| == 1)
    ensures forall i :: 0 <= i < |s| ==> '0' <= s[i] <= '9'
  {
    if n < 10 then [DigitChar(n)] else Decimal(n / 10) + [DigitChar(n % 10)]
  }

  /** Different numbers print differently. */
  lemma {:induction false} DecimalInjective(a: nat, b: nat)
    requires Decimal(a) == Decimal(b)
    ensures a == b
  {
    if a >= 10 && b >= 10 {
      var sa, sb := Decimal(a), Decimal(b);
      assert sa[|sa| - 1] == DigitChar(a % 10) && sb[|sb| - 1] == DigitChar(b % 10);
      assert sa[..|sa| - 1] == Decimal(a / 10) && sb[..|sb| - 1] == Decimal(b / 10);
      DecimalInjective(a / 10, b / 10);
    }
  }

  /** `f"cell_{n}"`. */
  function CellId(n: nat): string {
    "cell_" + Decimal(n)
  }

  lemma CellIdsDistinct(a: nat, b: nat)
    requires a != b
    ensures CellId(a) != CellId(b)
  {
    if CellId(a) == CellId(b) {
      assert CellId(a)[5..] == Decimal(a) && CellId(b)[5..] == Decimal(b);
      DecimalInjective(a, b);
    }
  }

  // ---------------------------------------------------------------------------
  // Emission

  /** The site that cell k (from 0) belongs to. */
  function SiteOf(p: TopologyParams, k: nat): nat {
    if Sectored(p) then k / 3 else k
  }

  /** Cell k's position among its site's azimuths. */
  function SlotOf(p: TopologyParams, k: nat): nat {
    if Sectored(p) then k % 3 else 0
  }

  /** The cells a number of sites carries: sectors per site times sites. */
  function CellsOfSites(p: TopologyParams, siteCount: nat): nat {
    if Sectored(p) then 3 * siteCount else siteCount
  }

  /** How many cells come out: the sites' cells, cut at num_cells. */
  function EmittedCount(p: TopologyParams, siteCount: nat): int {
    Min(p.numCells, CellsOfSites(p, siteCount))
  }

  /** Cell k of the emission, numbered k + 1. */
  function CellAt(sites: seq<Point>, p: TopologyParams, draws: nat -> Degree, k: nat): Cell
    requires k < CellsOfSites(p, |sites|)
  {
    var s := SiteOf(p, k);
    Cell(sites[s].0, sites[s].1, CellId(k + 1), AzimuthsFor(p, draws(s))[SlotOf(p, k)], p.cellCarrierFreqMhz)
  }

  /** `cells` are the first |cells| cells of the emission. */
  predicate EmittedPrefix(sites: seq<Point>, p: TopologyParams, draws: nat -> Degree, cells: seq<Cell>) {
    |cells| <= CellsOfSites(p, |sites|) &&
    forall k :: 0 <= k < |cells| ==> cells[k] == CellAt(sites, p, draws, k)
  }

  function EmitSpec(sites: seq<Point>, p: TopologyParams, draws: nat -> Degree): (cells: seq<Cell>)
    requires p.numCells >= 1
    ensures |cells| == EmittedCount(p, |sites|)
  {
    seq(EmittedCount(p, |sites|), k requires 0 <= k < EmittedCount(p, |sites|) => CellAt(sites, p, draws, k))
  }

  /**
   * Cell k: id cell_{k+1}, the request's frequency, the azimuth the
   * strategy gives, and the position of the site it was cut from.
   */
  lemma CellAtShape(sites: seq<Point>, p: TopologyParams, draws: nat -> Degree, k: nat)
    requires k < CellsOfSites(p, |sites|)
    ensures var c := CellAt(sites, p, draws, k);
      && SiteOf(p, k) < |sites|
      && c.cellId == CellId(k + 1)
      && c.cellCarrierFreqMhz == p.cellCarrierFreqMhz
      && (c.cellLat, c.cellLon) == sites[SiteOf(p, k)]
      && (Sectored(p) ==> c.cellAzDeg == SECTOR_AZIMUTHS[k % 3])
      && (p.azimuthStrategy == "random" ==> c.cellAzDeg == draws(k) && 0 <= c.cellAzDeg < 360)
      && (!Sectored(p) && p.azimuthStrategy != "random" ==> c.cellAzDeg == 0)
  {
  }

  /**
   * The emitted cells: at most num_cells of them, exactly num_cells when
   * the sites suffice, ids cell_1 .. cell_k in order and each cell as
   * CellAtShape describes.
   */
  lemma EmitShape(sites: seq<Point>, p: TopologyParams, draws: nat -> Degree)
    requires p.numCells >= 1
    ensures var cells := EmitSpec(sites, p, draws);
      && |cells| <= p.numCells
      && (p.numCells <= CellsOfSites(p, |sites|) ==> |cells| == p.numCells)
      && EmittedPrefix(sites, p, draws, cells)
  {
  }

  lemma EmitIdsDistinct(sites: seq<Point>, p: TopologyParams, draws: nat -> Degree, a: nat, b: nat)
    requires p.numCells >= 1
    requires a < b < |EmitSpec(sites, p, draws)|
    ensures EmitSpec(sites, p, draws)[a].cellId != EmitSpec(sites, p, draws)[b].cellId
  {
    CellIdsDistinct(a + 1, b + 1);
  }

  /**
   * A sectored request below three cells still gets one site, and its
   * emission stops inside that site.
   */
  lemma MidSiteTruncation(site: Point, p: TopologyParams, draws: nat -> Degree)
    requires Sectored(p) && p.numCells == 2
    ensures var cells := EmitSpec([site], p, draws);
      |cells| == 2 && cells[0].cellAzDeg == 0 && cells[1].cellAzDeg == 120 &&
      (cells[0].cellLat, cells[0].cellLon) == site && (cells[1].cellLat, cells[1].cellLon) == site
  {
  }

  /** One site's cells, stopping as soon as the counter passes num_cells. */
  method EmitSite(sites: seq<Point>, p: TopologyParams, draws: nat -> Degree, s: nat, cells: seq<Cell>)
    returns (cells': seq<Cell>, counter: int)
    requires p.numCells >= 1 && s < |sites|
    requires |cells| == CellsOfSites(p, s) < p.numCells
    requires EmittedPrefix(sites, p, draws, cells)
    ensures counter == |cells'| + 1
    ensures counter > p.numCells ==> |cells'| == p.numCells <= CellsOfSites(p, |sites|)
    ensures counter <= p.numCells ==> |cells'| == CellsOfSites(p, s + 1)
    ensures EmittedPrefix(sites, p, draws, cells')
  {
    var (siteLat, siteLon) := sites[s];
    var azimuths := AzimuthsFor(p, draws(s));
    cells', counter := cells, |cells| + 1;
    for a := 0 to |azimuths|
      invariant |cells'| == |cells| + a && counter == |cells'| + 1 && |cells'| < p.numCells
      invariant EmittedPrefix(sites, p, draws, cells')
    {
      ghost var k := |cells'|;
      assert SiteOf(p, k) == s && SlotOf(p, k) == a;
      cells' := cells' + [Cell(siteLat, siteLon, CellId(counter), azimuths[a], p.cellCarrierFreqMhz)];
      counter := counter + 1;
      if counter > p.numCells {
        return;
      }
    }
  }

  method EmitCells(sites: seq<Point>, p: TopologyParams, draws: nat -> Degree) returns (cells: seq<Cell>)
    requires p.numCells >= 1
    ensures cells == EmitSpec(sites, p, draws)
  {
    cells := [];
    var counter := 1;
    for s := 0 to |sites|
      invariant counter == |cells| + 1 && |cells| == CellsOfSites(p, s) < p.numCells
      invariant EmittedPrefix(sites, p, draws, cells)
    {
      cells, counter := EmitSite(sites, p, draws, s, cells);
      if counter > p.numCells {
        break;
      }
    }
    assert |cells| == EmittedCount(p, |sites|);
    forall k | 0 <= k < |cells| ensures cells[k] == EmitSpec(sites, p, draws)[k] {
    }
  }

  // ---------------------------------------------------------------------------
  // The whole generation

  /** The number of sites the chosen placement yields. */
  function PlacedSites(p: TopologyParams): nat
    requires p.numCells >= 1
  {
    if p.cellPlacementStrategy == "cluster" then ClusterCount(NumSites(p)) else NumSites(p)
  }

  /**
   * Sites by placement strategy (an unknown strategy is grid), then cells.
   * The aspect ratio and inter-site distance of the grid placement, the
   * sine and cosine of ring angles and the per-site random azimuths are
   * inputs. For grid placement, `hex` and `lattice` are the hexagonal
   * lattice walk.
   */
  method GenerateWithParams(p: TopologyParams, rect: Rect, aspectRatio: real, isd: real,
                            sin: real -> real, cos: real -> real, draws: nat -> Degree)
    returns (cells: seq<Cell>, ghost sites: seq<Point>, ghost hex: seq<Point>, ghost lattice: seq<(nat, nat)>)
    requires p.numCells >= 1 && isd > 0.0
    ensures cells == EmitSpec(sites, p, draws)
    ensures |sites| == PlacedSites(p) && |cells| == EmittedCount(p, PlacedSites(p))
    ensures p.cellPlacementStrategy == "cluster" ==> sites == ClusterSpec(rect, NumSites(p), sin, cos)
    ensures p.cellPlacementStrategy == "boundary" ==> sites == BoundarySpec(rect, NumSites(p))
    ensures p.cellPlacementStrategy != "cluster" && p.cellPlacementStrategy != "boundary" && aspectRatio > MAX_ASPECT_RATIO ==>
      sites == LinearLocations(rect, NumSites(p))
    ensures p.cellPlacementStrategy != "cluster" && p.cellPlacementStrategy != "boundary" && aspectRatio <= MAX_ASPECT_RATIO ==>
      && HexWalk(rect, isd, NumSites(p), hex, lattice)
      && sites == (if |hex| < NumSites(p) then SimpleGridSpec(rect, NumSites(p)) else hex)
    ensures rect.Valid() ==> forall k :: 0 <= k < |cells| ==> rect.Contains((cells[k].cellLat, cells[k].cellLon))
  {
    SiteCount(p);
    var numSites := NumSites(p);
    var placed;
    hex, lattice := [], [];
    if p.cellPlacementStrategy == "grid" {
      placed, hex, lattice := GridLocations(rect, numSites, aspectRatio, isd);
    } else if p.cellPlacementStrategy == "cluster" {
      placed := Clusters(rect, numSites, sin, cos);
      ClusterShape(rect, numSites, sin, cos);
    } else if p.cellPlacementStrategy == "boundary" {
      placed := Boundary(rect, numSites);
      BoundaryShape(rect, numSites);
    } else {
      placed, hex, lattice := GridLocations(rect, numSites, aspectRatio, isd);
    }
    sites := placed;
    cells := EmitCells(placed, p, draws);
    EmitShape(placed, p, draws);
    forall k | 0 <= k < |cells| && rect.Valid() ensures rect.Contains((cells[k].cellLat, cells[k].cellLon)) {
      CellAtShape(placed, p, draws, k);
    }
  }

  /**
   * Cell totals for grid and boundary placement: a sectored request rounds
   * down to whole sites from three cells up, and any other request gets
   * exactly num_cells.
   */
  lemma CellTotals(p: TopologyParams)
    requires p.numCells >= 1 && p.cellPlacementStrategy != "cluster"
    ensures Sectored(p) && p.numCells >= 3 ==> EmittedCount(p, PlacedSites(p)) == 3 * (p.numCells / 3)
    ensures Sectored(p) && p.numCells < 3 ==> EmittedCount(p, PlacedSites(p)) == p.numCells
    ensures !Sectored(p) ==> EmittedCount(p, PlacedSites(p)) == p.numCells
  {
    SiteCount(p);
  }

  /** Cluster placement can leave a request short of cells: 10 omnidirectional cells give 9. */
  lemma ClusterCellShortfall(p: TopologyParams)
    requires p.numCells == 10 && p.azimuthStrategy == "omnidirectional" && p.cellPlacementStrategy == "cluster"
    ensures EmittedCount(p, PlacedSites(p)) == 9
  {
    ClusterFallsShort();
  }
}
