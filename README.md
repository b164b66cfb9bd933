# Agentic mobility generation: a verified model of its deterministic core

The agentic mobility generator in `radp/digital_twin/agentic_mobility` takes a
natural-language request for a mobility scenario. It parses the request into
an intent, resolves its location to a bounding box, generates mobility
parameters and validates them. A failed validation triggers a suggestion and
another pass, up to a retry limit. The result is then shaped into the RADP
track-generation record. A separate generator places cell sites inside a
bounding box and emits the cell table.

This project models, in Dafny, the parts of that pipeline that do not depend
on a language model, a geocoder or a simulator:

- **RadpFormatter** (`radp_formatter.dfy`, with `stable_sort.dfy` for Python's
  stable `sorted`): the largest-remainder apportionment of UEs to classes and
  the fixed four-class output record. It is written as imperative loops,
  proved equal to a declarative specification.
- **Validators** and **ValidationChain**: the range checks over the
  parameter-range tables, and the two-tier validation that collects physics
  violations and consistency warnings and classifies the result.
- **Routing**, **Suggestion**, **State**, **LocationResolver**, **Workflow**,
  **Api**: the validate, suggest and retry state machine, run sequentially
  over a `PipelineState` object. The initial state and the final response
  shaping are modelled too. `Workflow.Run` proves the loop ends on "success"
  or "max_retries" with at most `MAX_RETRY_ATTEMPTS` (2) suggestions.
- **Cache** and **Geocoding**: the TTL cache as a class whose clock is an
  argument, the area-type decision table, the latitude bounds and the
  cache-first lookup.
- **Placement** and **Topology**: the site count, the grid, hexagonal,
  linear, simple-grid, cluster and boundary placements, and the cell emission
  that stops at `num_cells`, even in the middle of a site.

Python floats are read as exact reals. `int()` of a float is truncation
toward zero (`RadpFormatter.Trunc`). A dict whose insertion order matters is
a sequence of pairs with distinct keys (`Common.Dict`). Each external service
is a function argument:

- the query parser (`parse`);
- the geocoder (`geocode`, or a `GeocoderAnswer`);
- the parameter generator (`generate`);
- the suggestion generator (`suggest`);
- the sine and cosine of ring angles (`sin`, `cos`);
- the random azimuth draws (`draws`).

The aspect ratio and the inter-site distance of grid placement come from
`cos` and `sqrt`, so they are inputs as well, with the distance positive.

## Model

| member | source | states |
|---|---|---|
| RadpFormatter.Trunc | radp/digital_twin/agentic_mobility/formatters/radp_formatter.py:35-36 | `int()` truncates toward zero: the floor for a non-negative value, and within one above a negative value |
| RadpFormatter.BaseCounts | radp/digital_twin/agentic_mobility/formatters/radp_formatter.py:33-35 | one base count per distribution entry, in insertion order: the truncation of `num_ues * percentage` |
| RadpFormatter.SplitCounts | radp/digital_twin/agentic_mobility/formatters/radp_formatter.py:33-36 | the first loop yields exactly the base count and the fractional part of every entry |
| RadpFormatter.BaseAndFraction | radp/digital_twin/agentic_mobility/formatters/radp_formatter.py:33-36 | for non-negative inputs the base count is the floor, the fractional part lies in [0, 1), and the two add up to the exact count |
| RadpFormatter.ShortfallBounds | radp/digital_twin/agentic_mobility/formatters/radp_formatter.py:39-40 | non-negative fractions summing to exactly 1 leave `remaining` in [0, number of classes) |
| RadpFormatter.AddShortfall | radp/digital_twin/agentic_mobility/formatters/radp_formatter.py:42-46 | the `+= 1` loop raises IndexError exactly when `remaining` exceeds the number of classes; otherwise it gives +1 to each class ranked below `remaining` in descending stable order |
| RadpFormatter.RemoveSurplus | radp/digital_twin/agentic_mobility/formatters/radp_formatter.py:47-52 | the `-= 1` loop raises IndexError exactly when the surplus exceeds the number of classes; otherwise it takes 1 from each positive class ranked below the surplus in ascending stable order |
| RadpFormatter.ShortfallSum | radp/digital_twin/agentic_mobility/formatters/radp_formatter.py:45-46 | handing out a shortfall of at most the number of classes adds exactly that many UEs |
| RadpFormatter.ApportionExact | radp/digital_twin/agentic_mobility/formatters/radp_formatter.py:39-52 | with `num_ues >= 0` and non-negative fractions summing to 1, the adjustment never fails, every count is non-negative, and the counts sum to exactly `num_ues` |
| RadpFormatter.ShortfallGoesToSortedPrefix | radp/digital_twin/agentic_mobility/formatters/radp_formatter.py:42-46 | a class gets one more UE exactly when it is among the first `remaining` classes of the descending stable order; every other class keeps its base count |
| RadpFormatter.LargestRemaindersWin | radp/digital_twin/agentic_mobility/formatters/radp_formatter.py:44-46 | a class that got the extra UE has a larger fractional part than one that did not, or an equal part and an earlier insertion position |
| RadpFormatter.SurplusNeverNegative | radp/digital_twin/agentic_mobility/formatters/radp_formatter.py:47-52 | removing a surplus never takes a count below 0; a class loses one exactly when it is among the first classes of the ascending order and positive |
| RadpFormatter.TieGoesToFirstInserted | radp/digital_twin/agentic_mobility/formatters/radp_formatter.py:44-46 | with equal fractional parts the single extra UE goes to the class inserted first |
| RadpFormatter.CountsDict | radp/digital_twin/agentic_mobility/formatters/radp_formatter.py:30-36 | the counts dict has the distribution's keys, in the same order, holding the computed counts |
| RadpFormatter.EmitClasses | radp/digital_twin/agentic_mobility/formatters/radp_formatter.py:55-62 | the loop over the four canonical classes builds exactly the specified class distribution |
| RadpFormatter.FormatToRadp | radp/digital_twin/agentic_mobility/formatters/radp_formatter.py:9-96 | the whole imperative conversion equals the declarative specification, including the IndexError cases |
| RadpFormatter.FormatShape | radp/digital_twin/agentic_mobility/formatters/radp_formatter.py:55-94 | the output has exactly the keys stationary, pedestrian, cyclist and car, in order; a missing class counts 0, a missing adjustment gives velocity and variance 0; boundaries are copied, `num_ticks` comes from the intent, and the constants are 42, 100, 100, 3600, 0.01 and 1 |
| RadpFormatter.EmittedSumExact | radp/digital_twin/agentic_mobility/formatters/radp_formatter.py:33-62 | when every distribution key is canonical and the fractions are non-negative and sum to 1, the emitted counts sum to exactly `num_ues` |
| RadpFormatter.DroppedClassLosesUes | radp/digital_twin/agentic_mobility/formatters/radp_formatter.py:33-62 | a non-canonical class is counted but not emitted: 10 UEs split half "bus" emit a total of 5 |
| RadpFormatter.SurplusBeyondClassesFails | radp/digital_twin/agentic_mobility/formatters/radp_formatter.py:47-52 | a distribution the validator accepts (sum 1.005) can leave a surplus of 5 over two classes, and the decrement loop then raises IndexError |
| StableSort.SortIndicesSorted | radp/digital_twin/agentic_mobility/formatters/radp_formatter.py:44 | the insertion sort on indices gives a permutation of all classes, ordered by fractional part with ties kept in insertion order, as Python's stable `sorted` does |
| StableSort.RankOrder | radp/digital_twin/agentic_mobility/formatters/radp_formatter.py:44 | one class ranks before another exactly when its key goes first, or the keys are equal and it was inserted first |
| StableSort.RankInverse | radp/digital_twin/agentic_mobility/formatters/radp_formatter.py:44 | a class's rank is its position in the sorted order |
| StableSort.CountRanksBelow | radp/digital_twin/agentic_mobility/formatters/radp_formatter.py:45-46 | exactly r classes have rank below r, so `range(remaining)` touches `remaining` distinct classes |
| Validators.ValidateAlpha | radp/digital_twin/agentic_mobility/utils/validators.py:12-20 | valid exactly when 0.0 <= alpha <= 1.0, both ends inclusive; otherwise the range message |
| Validators.ValidateVariance | radp/digital_twin/agentic_mobility/utils/validators.py:23-31 | valid exactly when the variance is non-negative |
| Validators.ValidateVelocity | radp/digital_twin/agentic_mobility/utils/validators.py:34-49 | an unknown class is always invalid with its own message; otherwise valid exactly when min <= v <= max of the class's range |
| Validators.VelocityTable | radp/digital_twin/agentic_mobility/defaults/parameter_ranges.py:10-15 | stationary passes only at 0, pedestrian in [0.5, 2], cyclist in [3, 8], car in [5, 30] |
| Validators.ValidateNumUes | radp/digital_twin/agentic_mobility/utils/validators.py:52-63 | valid exactly when 1 <= n <= 10000 |
| Validators.ValidateNumTicks | radp/digital_twin/agentic_mobility/utils/validators.py:66-77 | valid exactly when 1 <= t <= 1000 |
| Validators.FirstOutOfUnit | radp/digital_twin/agentic_mobility/utils/validators.py:90-92 | finds the first entry outside [0, 1], or none when all lie inside |
| Validators.DistributionVerdictIff | radp/digital_twin/agentic_mobility/utils/validators.py:86-94 | passes exactly when the sum is within 0.01 of 1 and every fraction is in [0, 1]; a bad sum is reported first, otherwise the first bad entry |
| Validators.EmptyDistributionFails | radp/digital_twin/agentic_mobility/utils/validators.py:86-88 | an empty distribution sums to 0 and fails the sum test |
| Validators.ValidateDistribution | radp/digital_twin/agentic_mobility/utils/validators.py:80-94 | the loop with its early returns gives exactly the distribution verdict |
| Validators.ScenarioWarningsIff | radp/digital_twin/agentic_mobility/utils/validators.py:103-115 | highway warns once each for pedestrians > 0 and cyclists > 0; rural warns exactly when stationary > 0.5; other scenarios never warn; missing keys count as 0; no warning repeats |
| Validators.CheckScenarioConsistency | radp/digital_twin/agentic_mobility/utils/validators.py:97-115 | the appending code gives exactly the scenario warnings, in order |
| ValidationChain.CheckVelocities | radp/digital_twin/agentic_mobility/chains/validation_chain.py:80-106 | the loop over `velocity_adjustments` appends exactly the specified messages and violations, entry by entry |
| ValidationChain.CheckEntry | radp/digital_twin/agentic_mobility/chains/validation_chain.py:81-106 | one velocity entry yields exactly its specified messages and violations: the velocity check (a missing velocity reads as 0), then the non-negative variance check |
| ValidationChain.CollectWarnings | radp/digital_twin/agentic_mobility/chains/validation_chain.py:108-116 | every scenario warning is appended to the errors after the physics messages, and each becomes one `scenario_mobility_mismatch` issue of severity warning, in order |
| ValidationChain.CheckPhysics | radp/digital_twin/agentic_mobility/chains/validation_chain.py:43-106 | the physics tier appends exactly the alpha, variance, distribution and velocity findings, in that order |
| ValidationChain.Validate | radp/digital_twin/agentic_mobility/chains/validation_chain.py:23-143 | the whole imperative validation equals the declarative result |
| ValidationChain.VelocityFindingsEmptyIff | radp/digital_twin/agentic_mobility/chains/validation_chain.py:80-106 | the velocity loop records nothing exactly when every entry passes both its velocity check and its variance check |
| ValidationChain.PhysicsCleanIff | radp/digital_twin/agentic_mobility/chains/validation_chain.py:43-106 | no physics violation exactly when alpha is in [0, 1], variance >= 0, the distribution passes and every velocity entry is clean |
| ValidationChain.Classification | radp/digital_twin/agentic_mobility/chains/validation_chain.py:118-143 | success exactly when neither tier found anything; any physics violation is critical and still carries all consistency issues; issues alone give severity warning with an empty physics list; errors are the physics messages then the warnings, one per record |
| ValidationChain.VelocityFindingsDescribed | radp/digital_twin/agentic_mobility/chains/validation_chain.py:80-106 | each velocity record is critical and names the same class and value as the message appended with it |
| ValidationChain.PhysicsFindingsDescribed | radp/digital_twin/agentic_mobility/chains/validation_chain.py:46-106 | every physics record is critical and matches the message appended with it |
| ValidationChain.VelocityFindingsInOrder | radp/digital_twin/agentic_mobility/chains/validation_chain.py:80-106 | the findings for the first entries open the findings for all, so entries are reported in dict order, at most two records each |
| ValidationChain.FixedRecordsFirst | radp/digital_twin/agentic_mobility/chains/validation_chain.py:45-77 | the alpha record comes first, then variance, then the single distribution record, whose value is the sum of the fractions |
| ValidationChain.MissingVelocityIsViolation | radp/digital_twin/agentic_mobility/chains/validation_chain.py:81-92 | a missing velocity reads as 0: a violation for pedestrian, cyclist or car, a pass for stationary |
| ValidationChain.BothTiersCollected | radp/digital_twin/agentic_mobility/chains/validation_chain.py:108-129 | with alpha 1.5 on a highway with pedestrians, the critical result still lists the highway warning after the alpha message |
| Routing.ShouldRetry | radp/digital_twin/agentic_mobility/graph/routing.py:6-29 | no result gives retry; "success" gives success whatever the count; a failure gives max_retries exactly when `retry_count >= 2`, and retry otherwise |
| Suggestion.SuggestionNode | radp/digital_twin/agentic_mobility/nodes/suggestion.py:6-37 | no or successful result leaves the state unchanged; otherwise the current query becomes the augmented query for the original user query and the count rises by exactly one; no other field changes |
| State.PipelineState.Initial | radp/digital_twin/agentic_mobility/api.py:37-45 | the initial state has `current_query == user_query`, retry count 0 and every other field None |
| LocationResolver.LocationResolverNode | radp/digital_twin/agentic_mobility/nodes/location_resolver.py:8-46 | a missing intent is an error; a geocoder miss gives the box centred on (0, 0) spanning [-0.05, 0.05] with area type urban; a hit gives the geocoder's data; the update holds only `location_data` |
| Workflow.RunPass | radp/digital_twin/agentic_mobility/graph/workflow.py:24-39 | one pass sets intent, location, parameters and validation result from the current query, and leaves the queries and the retry count alone |
| Workflow.Run | radp/digital_twin/agentic_mobility/graph/workflow.py:31-47 | the loop ends on success or max_retries, never retry; each suggestion adds one to the count, which never passes 2, and max_retries is reached exactly at 2; the final state holds the parameters generated for the final intent, its resolved location and their validation |
| Api.FormatFinal | radp/digital_twin/agentic_mobility/api.py:53-57 | the formatter runs on the final parameters, location and intent; it fails with IndexError exactly when the apportionment does |
| Api.ShapeResult | radp/digital_twin/agentic_mobility/api.py:51-88 | "success" validation gives status success; any other gives success_with_warnings with the validation errors, the failure reasons and "failed_but_accepted"; both carry the same formatter output and the final retry count |
| Api.GenerateFromQuery | radp/digital_twin/agentic_mobility/api.py:21-88 | a full run succeeds exactly when the formatter succeeds on the final intent, its resolved location and the parameters generated for it, and otherwise fails only with IndexError; `radp_params` is that formatter output and the metadata holds that intent and location; status is "success" exactly when the final validation passed; the retry count is at most 2, and exactly 2 on success_with_warnings |
| Cache.ExpiryBoundary | radp/digital_twin/agentic_mobility/utils/cache.py:33 | expiry is strict: an entry exactly `ttl` seconds old is still live |
| Cache.EffectiveTtl | radp/digital_twin/agentic_mobility/utils/cache.py:17 | a missing or zero `ttl` falls back to the configured 3600 |
| Cache.SimpleCache.constructor | radp/digital_twin/agentic_mobility/utils/cache.py:11-18 | a new cache is empty, with the effective ttl |
| Cache.SimpleCache.Get | radp/digital_twin/agentic_mobility/utils/cache.py:20-38 | a missing key gives None and changes nothing; an expired key is deleted and gives None; a live key gives its value and changes nothing |
| Cache.SimpleCache.Set | radp/digital_twin/agentic_mobility/utils/cache.py:40-47 | stores (value, now) under the key, replacing any entry; other keys are untouched |
| Cache.SimpleCache.Clear | radp/digital_twin/agentic_mobility/utils/cache.py:49-51 | clearing leaves no entries |
| Cache.SimpleCache.Size | radp/digital_twin/agentic_mobility/utils/cache.py:53-59 | the number of stored entries, expired ones included |
| Cache.SetThenGet | radp/digital_twin/agentic_mobility/utils/cache.py:29-47 | a value read back at most `ttl` seconds after it was set is returned |
| Cache.ClearThenSize | radp/digital_twin/agentic_mobility/utils/cache.py:49-59 | after `clear`, `size` is 0 |
| Geocoding.InferAreaType | radp/digital_twin/agentic_mobility/utils/geocoding.py:84-103 | urban exactly when city or town appears with city_district or neighbourhood; rural exactly for village or hamlet without city or town; always one of the three types |
| Geocoding.UnrecognisedAddressIsSuburban | radp/digital_twin/agentic_mobility/utils/geocoding.py:101-103 | an address with none of the recognised keys is suburban |
| Geocoding.LatBounds | radp/digital_twin/agentic_mobility/utils/geocoding.py:54-58 | the latitude bounds are `lat -/+ km/111`, symmetric about the centre and non-empty for km > 0 |
| Geocoding.GeocodeLocation | radp/digital_twin/agentic_mobility/utils/geocoding.py:23-82 | a live cache entry under `location_bounds` is returned before the geocoder is asked; otherwise a miss or a service error gives None, and a hit gives the built record, stored under the same key |
| Placement.CeilSqrt | radp/digital_twin/agentic_mobility/topology_generator.py:252 | the least g with g*g >= n, that is `ceil(sqrt(n))` |
| Placement.LinearShape | radp/digital_twin/agentic_mobility/topology_generator.py:225-245 | exactly n points, evenly spaced along the longer axis from end to end, on the centre line of the other axis, inside a valid rectangle |
| Placement.SimpleGridShape | radp/digital_twin/agentic_mobility/topology_generator.py:252-266 | site k is row k / g and column k mod g of the `ceil(sqrt n)`-square linspace grid, and lies inside a valid rectangle |
| Placement.SimpleGrid | radp/digital_twin/agentic_mobility/topology_generator.py:247-266 | the nested loops with their breaks give exactly the first n grid sites, row by row |
| Placement.HexRow | radp/digital_twin/agentic_mobility/topology_generator.py:207-213 | one lattice row appends the sites of columns 0, 1, … in order and nothing else, stopping only when n sites are reached or at the first column past the eastern edge |
| Placement.HexLattice | radp/digital_twin/agentic_mobility/topology_generator.py:197-216 | the walk yields in-rectangle lattice sites in row-major order with none skipped, at most n; it stops early only once every lattice site inside the rectangle is taken |
| Placement.GridLocations | radp/digital_twin/agentic_mobility/topology_generator.py:158-223 | exactly n sites; linear placement above aspect ratio 5; otherwise the lattice walk's sites when the walk reaches n, and the simple grid when the rectangle holds fewer than n lattice sites; inside a valid rectangle in every case |
| Placement.Clip | radp/digital_twin/agentic_mobility/topology_generator.py:300-301 | clipping lands in [lo, hi] and leaves a value already inside unchanged |
| Placement.ClusterCount | radp/digital_twin/agentic_mobility/topology_generator.py:279-311 | cluster placement returns at most n sites, and at least one when n >= 1 |
| Placement.RingSite | radp/digital_twin/agentic_mobility/topology_generator.py:296-303 | a ring site, after clipping, lies inside a valid rectangle |
| Placement.Ring | radp/digital_twin/agentic_mobility/topology_generator.py:289-303 | each ring has `n // rings` sites (none with a single ring), all inside a valid rectangle |
| Placement.ClusterWalk | radp/digital_twin/agentic_mobility/topology_generator.py:281-303 | the walk starts at the centre of the rectangle |
| Placement.ClusterWalkLength | radp/digital_twin/agentic_mobility/topology_generator.py:281-303 | the centre plus `upTo` full rings gives 1 + upTo * perRing sites |
| Placement.ClusterShape | radp/digital_twin/agentic_mobility/topology_generator.py:268-311 | the first site is the centre, at most n sites come back, and every site lies inside a valid rectangle |
| Placement.ClusterFallsShort | radp/digital_twin/agentic_mobility/topology_generator.py:286-311 | 1 and 4 sites come back whole, while 5 give 4 and 10 give 9 |
| Placement.RingsNeedTwo | radp/digital_twin/agentic_mobility/topology_generator.py:286-287 | rings with sites need at least two requested sites |
| Placement.ClusterRing | radp/digital_twin/agentic_mobility/topology_generator.py:289-309 | one ring's loop extends the walk by that ring, cut at n sites |
| Placement.Clusters | radp/digital_twin/agentic_mobility/topology_generator.py:268-311 | the loops give exactly the first n sites of the centre-then-rings walk |
| Placement.PerimeterAt | radp/digital_twin/agentic_mobility/topology_generator.py:319-341 | the perimeter lists the top, right, bottom and left edges in that order |
| Placement.EdgesInside | radp/digital_twin/agentic_mobility/topology_generator.py:324-341 | each edge's moving coordinate stays within the rectangle's range |
| Placement.BoundaryShape | radp/digital_twin/agentic_mobility/topology_generator.py:313-344 | the perimeter has 4 * ceil(n/4) >= n points, so exactly n come back, each on its own edge (max_lat on top, and so on) and on the boundary of a valid rectangle |
| Placement.Boundary | radp/digital_twin/agentic_mobility/topology_generator.py:313-344 | the four edge loops and the cut give exactly the first n perimeter points |
| Topology.SectorsPerSite | radp/digital_twin/agentic_mobility/topology_generator.py:97-103 | 3 sectors per site when sectored, 1 otherwise |
| Topology.SiteCount | radp/digital_twin/agentic_mobility/topology_generator.py:97-103 | at least one site; sectored gives `max(1, num_cells // 3)` sites, any other strategy `num_cells` |
| Topology.AzimuthsFor | radp/digital_twin/agentic_mobility/topology_generator.py:130-135 | one azimuth per sector of the site |
| Topology.Decimal | radp/digital_twin/agentic_mobility/topology_generator.py:142 | `str` of a number is a non-empty string of digits, one digit exactly below 10 |
| Topology.DecimalInjective | radp/digital_twin/agentic_mobility/topology_generator.py:142 | different numbers print differently |
| Topology.CellIdsDistinct | radp/digital_twin/agentic_mobility/topology_generator.py:142 | different counters give different cell ids |
| Topology.EmitSpec | radp/digital_twin/agentic_mobility/topology_generator.py:125-154 | the emission has `min(num_cells, sectors_per_site * len(sites))` cells |
| Topology.CellAtShape | radp/digital_twin/agentic_mobility/topology_generator.py:126-147 | cell k has id `cell_{k+1}`, the request's frequency and its site's position; sectored cells cycle 0, 120, 240; random ones carry the site's draw; omnidirectional ones are 0 |
| Topology.EmitShape | radp/digital_twin/agentic_mobility/topology_generator.py:125-154 | at most `num_cells` cells, exactly `num_cells` when the sites suffice, each as its position in the emission dictates |
| Topology.EmitIdsDistinct | radp/digital_twin/agentic_mobility/topology_generator.py:142-147 | no two emitted cells share an id |
| Topology.MidSiteTruncation | radp/digital_twin/agentic_mobility/topology_generator.py:137-154 | two sectored cells on one site stop after azimuths 0 and 120, both at that site |
| Topology.EmitSite | radp/digital_twin/agentic_mobility/topology_generator.py:128-154 | one site's inner loop extends the cells by that site's cells, stopping as soon as the counter passes `num_cells` |
| Topology.EmitCells | radp/digital_twin/agentic_mobility/topology_generator.py:125-154 | the counter loop with its two breaks gives exactly the specified emission |
| Topology.GenerateWithParams | radp/digital_twin/agentic_mobility/topology_generator.py:76-156 | placement by strategy, with an unknown strategy placed exactly as grid (linear, lattice walk or simple-grid fallback); `min(num_cells, sectors * sites)` cells, emitted as specified; every cell inside a valid box |
| Topology.CellTotals | radp/digital_twin/agentic_mobility/topology_generator.py:97-154 | outside cluster placement, sectored requests of 3 or more cells get `3 * (num_cells // 3)` cells, and all other requests exactly `num_cells` |
| Topology.ClusterCellShortfall | radp/digital_twin/agentic_mobility/topology_generator.py:110-154 | ten omnidirectional cells in a cluster come out as nine |

## Left out

- The language-model plumbing is not part of this model: the LLM client, the parser, parameter, suggestion and topology chains, the prompts and the query-parser node. Their outputs are the function arguments `parse`, `generate` and `suggest`.
- The parameter-agent node is modelled only as the `generate` argument. Its tuple unpacking of the chain's single return value and the distribution provenance are left out.
- The validation node is a wrapper that checks a precondition and delegates. `ValidationChain.Validate` is called directly instead.
- The graph's parallel fork of the location resolver and the parameter agent runs sequentially in `Workflow.RunPass`. The two branches write disjoint keys, so the order does not matter.
- `GenerateFromQuery` does not model the workflow library's invocation or its merging of partial updates. The nodes write into one `PipelineState` object instead.
- Floating point is read as exact reals. Rounding of cell coordinates to 6 decimals, float sums in the distribution check and `np.linspace` rounding are not modelled.
- `math.sqrt`, `math.cos` and `math.radians` are not modelled. The aspect ratio and the inter-site distance of grid placement are inputs, with the distance positive. The sine and cosine of ring angles are function arguments. `sqrt(3)` and pi are fixed real constants.
- Placement.GridLocations: the inter-site distance must be positive. For a box of zero area the source computes aspect ratio 1 and distance 0, and its lattice loop (`lon += 0`) then appends the south-west corner n times; the model leaves that case out. The same holds for `Topology.GenerateWithParams`.
- Placement.GridLocations: the guard `min(lat_km, lon_km) > 0` inside the aspect-ratio formula is part of the input `aspectRatio`.
- `np.random.randint` azimuths are the argument `draws`, one whole degree in [0, 359] per site.
- The Nominatim network call, its timeout and its exception types are the `GeocoderAnswer` input. The longitude half-width `km / (111 |cos lat|)` is the input `lonOffset`.
- `str(bounds_size_km)` in the cache key is the input `boundsText`, because the model has no float printing.
- The module-level cache singleton, and whether it is enabled, are modelled as a nullable `SimpleCache` argument.
- `time.time()` is the argument `now` of the cache methods. On a geocoding miss the clock is read twice, once by the lookup (`now`) and once when the record is stored (`storedAt`).
- Environment loading in the configuration is not modelled. `MAX_RETRY_ATTEMPTS` is 2 and the cache lifetime is 3600 seconds.
- The `print` calls and the DataFrame construction are not modelled. The cell table is a sequence of `Cell` records.
- `generate_from_llm`, `generate_topology_from_mobility_data`, the simulator integration, the examples and the graph visualisation are not modelled.
- The pydantic bounds on parameter and topology models are not enforced on construction. The generator's contracts ask only for `num_cells >= 1`, the one bound its code relies on.
