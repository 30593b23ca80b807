# Meetup planner and site models in Dafny

This project models the core of a personal Django site:

- **The London meetup planner.** A group of people each give a starting point and a home. The planner builds a graph of the Tube network with one node per (station, line) and one hub per station, plus ride edges and transfer edges. It links every person's origin and home into a copy of that graph by walking edges to the three nearest stations. It picks candidate stations around the group and computes each person's shortest journey to every candidate and back home. Each candidate gets four scores: quick arrival, efficiency, easy home and fairness. The planner returns the five best candidates for each score.
- **The services around the planner.** Postcode and free-text geocoding turn text into places, and the TfL status feed is turned into a list of disruptions.
- **The site's models.** These are tools (unique slugs, HTML titles, the export flag), blog posts and tags (slugs, publication time, excerpts), recipes (back-filling fields from the recipe's JSON document) and projects (the technologies list).

Module layout:

| file | module | models |
|---|---|---|
| `wrappers.dfy` | `Wrappers` | `Option` |
| `sets.dfy`, `text.dfy`, `sorting.dfy` | `Sets`, `Text`, `Sorting` | Python's set iteration, `str` methods (`strip`, `split`, `lower`, `join`, `str(n)`), `sorted` / `list.sort` with a key |
| `graph.dfy` | `TransitGraph` | the undirected weighted graph and `_build_graph` |
| `routing.dfy` | `Routing` | shortest paths (`get_journey_time`, `get_journey_path`) and `get_lines_used` |
| `cache.dfy` | `NetworkCache` | the module-level cache of graph, stations and name lookup |
| `walking.dfy` | `Walking` | walking time and the nearest stations |
| `scores.dfy` | `Scores` | `round(x, 1)` and the four scores |
| `optimizer.dfy` | `Optimizer` | `calculate_meetup_spots` and its helpers |
| `geocoding.dfy` | `Geocoding` | postcode recognition, Postcodes.io and Photon replies |
| `disruptions.dfy` | `Disruptions` | TfL line-status replies |
| `tools.dfy`, `blog.dfy`, `recipes.dfy`, `projects.dfy` | `Tools`, `Blog`, `Recipes`, `Projects` | the Django models |

Several pieces of source code work by changing state step by step:

- graph construction;
- the cache;
- the loops of the optimizer, of Dijkstra's search and of the reply decoders;
- the Django `save` methods.

These are methods with loops and invariants, and objects the source updates in place are classes. Each such method is proved against a specification function or predicate:

- `BuiltGraph` for graph construction;
- `Places` and `Reports` for the two replies;
- `IsShortest` for the search;
- `MeetupOutcome` for the planner.

The lemmas state the properties of those specifications. Pure code is written as functions.

## Model

| member | source | states |
|---|---|---|
| TransitGraph.Graph.AddEdge | meetup/services/graph.py:114 | adding an edge keeps an undirected graph undirected and non-negative weights non-negative; the new edge carries the given weight and line in both directions |
| TransitGraph.NetGraph.constructor | meetup/services/graph.py:85 | a new graph has no nodes and no edges |
| TransitGraph.NetGraph.AddNode | meetup/services/graph.py:103-112 | the graph object's value gains exactly the node |
| TransitGraph.NetGraph.AddEdge | meetup/services/graph.py:114 | the graph object's value becomes the graph with the edge added |
| TransitGraph.NetGraph.Copy | meetup/services/optimizer.py:136 | `G.copy()` is a fresh object with the same nodes and edges; the original is unchanged |
| TransitGraph.MinTransferTime | meetup/services/graph.py:158-169 | the transfer weight is the least of 4.0 and half of each recorded interchange time from this line to another line at the station |
| TransitGraph.AddConnections | meetup/services/graph.py:90-114 | after the connections loop, the graph is the one the connections alone define and `station_lines` records which lines serve each station |
| TransitGraph.ReadInterchanges | meetup/services/graph.py:124-130 | the loop fills `interchange_times` with both line orders of every row, and a later row wins |
| TransitGraph.AddHubLink | meetup/services/graph.py:146-174 | adds the transfer edge between a station's hub and one of its lines: weight 0 for a one-line station, the least transfer time otherwise |
| TransitGraph.AddStationHub | meetup/services/graph.py:133-174 | adds the station's hub node and a transfer edge for every line serving it |
| TransitGraph.AddHubs | meetup/services/graph.py:132-174 | after the hub loop, the graph holds the hub and transfer edges of every station in `station_lines`; a station missing from the table gets none |
| TransitGraph.BuildGraph | meetup/services/graph.py:74-176 | `_build_graph` returns a fresh graph equal to `BuiltGraph` of the three tables |
| TransitGraph.ConnectionGraphShape | meetup/services/graph.py:90-114 | the ride graph is undirected, has only line nodes, and each of its edges joins the end points of some connection row |
| TransitGraph.ConnectionLastWins | meetup/services/graph.py:114 | a ride edge carries the time and line of the last connection row joining its two line nodes |
| TransitGraph.StationLinesSpec | meetup/services/graph.py:96-97 | a station is in `station_lines` if and only if some row touches it; a line serves it if and only if some touching row is on that line |
| TransitGraph.InterchangeTimesSpec | meetup/services/graph.py:124-130 | the interchange table answers for a line pair if and only if some row names that pair in either order |
| TransitGraph.InterchangeTimesSymmetric | meetup/services/graph.py:128-130 | a transfer from line a to line b costs the same as one from b to a |
| TransitGraph.InterchangeTimesNonNegative | meetup/services/graph.py:124-130 | with non-negative rows, every recorded transfer time is non-negative |
| TransitGraph.ConnectionGraphNonNegative | meetup/services/graph.py:114 | with non-negative ride times, every ride edge weight is non-negative |
| TransitGraph.BuiltGraphValid | meetup/services/graph.py:74-176 | the built graph is undirected and every edge joins two of its nodes |
| TransitGraph.BuiltGraphNonNegative | meetup/services/graph.py:74-176 | with non-negative tables, every edge weight of the built graph is non-negative |
| TransitGraph.RideEdge | meetup/services/graph.py:114 | each connection row's line nodes are joined in the built graph by the ride edge of the last row joining them |
| TransitGraph.HubNodeIff | meetup/services/graph.py:132-144 | a hub node exists exactly for the stations of the table that some connection row touches |
| TransitGraph.HubEdgeOf | meetup/services/graph.py:146-174 | every line serving a station of the table is linked to that station's hub |
| TransitGraph.SingleLineHubFree | meetup/services/graph.py:146-151 | at a station served by one line, moving between the line and the hub is free |
| TransitGraph.MultiLineHubWeight | meetup/services/graph.py:152-174 | at a station served by several lines, the hub edge weighs the least of 4.0 and the halved interchange times, and it is one of them |
| TransitGraph.HubWeightBounds | meetup/services/graph.py:158-169 | the hub weight is at most 4.0 and at most half of every recorded transfer time, and it is one of those values |
| Routing.PathExtend | meetup/services/graph.py:215 | extending a path by one edge adds that edge's weight |
| Routing.PrefixWeight | meetup/services/graph.py:215 | a prefix of a path is a path, and it is no heavier when weights are non-negative |
| Routing.LeastIsShortest | meetup/services/graph.py:215 | Dijkstra's step: an unsettled node of least tentative distance already has its shortest distance |
| Routing.ClosedUnderEdges | meetup/services/graph.py:215 | once the frontier is empty, every node reachable from the source is settled |
| Routing.RelaxEdge | meetup/services/graph.py:215 | relaxing one edge keeps every tentative distance witnessed by a path, and no tentative distance gets worse |
| Routing.RelaxFrom | meetup/services/graph.py:215 | relaxing every edge out of the settled node keeps the search invariants and covers all its edges |
| Routing.Dijkstra | meetup/services/graph.py:215 | the search returns None if and only if the target is unreachable; otherwise it returns a shortest path and its weight |
| Routing.Search | meetup/services/graph.py:215 | the main loop of the search, from a source in the graph to another node: None if and only if the target is unreachable, otherwise a shortest path and its weight |
| Routing.JourneyTime | meetup/services/graph.py:209-217 | the journey time is None if and only if the target cannot be reached (a missing node included); otherwise it is the weight of a shortest path |
| Routing.JourneyPath | meetup/services/graph.py:220-227 | the journey path is None if and only if the target cannot be reached; otherwise it is a shortest path |
| Routing.ShortestWeightUnique | meetup/services/graph.py:215 | all shortest paths between two nodes weigh the same, so the journey time does not depend on which one the search settles on |
| Routing.LinesUsed | meetup/services/graph.py:230-237 | the lines used are exactly the lines of the path's steps, with transfer and walking steps excluded |
| Routing.LinesOfJoin | meetup/services/graph.py:230-237 | the lines of a journey made of two legs are the union of the two legs' lines |
| NetworkCache.Cache.constructor | meetup/services/graph.py:179-187 | a new cache holds no graph, no stations and no lookup |
| NetworkCache.Cache.GetGraph | meetup/services/graph.py:179-187 | the graph is built from the tables on the first call only; later calls return the same object |
| NetworkCache.Cache.GetStations | meetup/services/graph.py:190-195 | returns the stations table and leaves it cached; on a miss the graph is built (once, if it was missing too) and cached; on a hit nothing is rebuilt |
| NetworkCache.Cache.GetStationLookup | meetup/services/graph.py:198-206 | maps every lower-cased station name to a station of that name; it is computed once and then kept |
| NetworkCache.Cache.ResetCache | meetup/services/graph.py:240-245 | forgets the graph, the stations and the lookup |
| Walking.EstimateWalkingTime | meetup/services/walking.py:42-48 | walking minutes are 1.3 times the distance at 5 km/h, so the result is non-negative for a non-negative distance |
| Walking.WalkingTimeMonotone | meetup/services/walking.py:42-48 | a longer distance never walks quicker, and zero distance takes zero minutes |
| Walking.AllEntries | meetup/services/walking.py:58-63 | the loop produces one entry per station: its distance and walking time from the given point |
| Walking.PrefixIsNearest | meetup/services/walking.py:65-66 | a prefix of the distance-sorted entries leaves out no station closer than one it keeps |
| Walking.FindNearestStations | meetup/services/walking.py:51-66 | returns min(n, number of stations) distinct stations sorted by distance, and no station left out is closer than one returned |
| Walking.AtStationFirst | meetup/services/walking.py:51-66 | someone standing at a station gets that station first, zero minutes away |
| Scores.Round1 | meetup/services/optimizer.py:107 | `round(x, 1)` is the multiple of 0.1 nearest to x, with ties going to even |
| Scores.Round1Monotone | meetup/services/optimizer.py:107 | rounding never reorders two values |
| Scores.Round1Idempotent | meetup/services/optimizer.py:107 | a rounded value rounds to itself |
| Scores.RoundScoreMonotone | meetup/services/optimizer.py:262 | rounding a score, infinity included, never reorders two scores |
| Scores.MaxOf | meetup/services/optimizer.py:227-236 | `max` is one of the values and bounds all of them |
| Scores.MaxAtMostSum | meetup/services/optimizer.py:227-236 | with no negative journey, the total is at least the longest journey |
| Scores.Known | meetup/services/optimizer.py:229-230 | a time is kept if and only if it is known, and nothing is added |
| Scores.KnownFilters | meetup/services/optimizer.py:229-230 | filtering a concatenation filters each part, a known time is kept and a `None` dropped: each known time once per occurrence, in order |
| Scores.EasyHomeSpec | meetup/services/optimizer.py:229-233 | easy-home is infinite if and only if no trip home is known; otherwise it bounds every known trip home and is one of them |
| Scores.FairnessSplits | meetup/services/optimizer.py:234-236 | fairness is quick-arrival plus the finite part of easy-home |
| Scores.ScoreOrder | meetup/services/optimizer.py:227-236 | for non-negative times, quick-arrival is at most efficiency and at most fairness |
| Optimizer.Centroid | meetup/services/optimizer.py:24-30 | the centroid is the mean latitude and longitude, or (0, 0) when there are no locations |
| Optimizer.CentroidInBox | meetup/services/optimizer.py:24-30 | the centroid lies within the bounding box of the locations |
| Optimizer.CandidateStations | meetup/services/optimizer.py:33-59 | the candidates, without repeats, are exactly the stations within 8 km of the centroid or within 3 km of some origin |
| Optimizer.AddNearOrigin | meetup/services/optimizer.py:53-57 | after the pass for one origin, the set holds exactly what it held before plus the stations within 3 km of that origin |
| Optimizer.OriginStationIsCandidate | meetup/services/optimizer.py:53-57 | a station someone starts at is always a candidate |
| Optimizer.Linked | meetup/services/optimizer.py:62-83 | linking adds the person node and one walking edge to each listed station hub that exists |
| Optimizer.LinkedPreserves | meetup/services/optimizer.py:62-83 | linking keeps the graph undirected, and keeps weights non-negative when walking times are non-negative |
| Optimizer.LinkedEdges | meetup/services/optimizer.py:62-83 | every new edge is a walking edge from the person node to an existing listed hub, weighted by that station's walking time; every existing listed hub gets one |
| Optimizer.ConnectPerson | meetup/services/optimizer.py:62-83 | the person node is linked to the three nearest stations' hubs, and nothing else changes |
| Optimizer.AttachAll | meetup/services/optimizer.py:140-149 | the base graph with every person's origin and home node linked in, person by person |
| Optimizer.AttachAllPreserves | meetup/services/optimizer.py:140-149 | attaching the group keeps the graph undirected and its weights non-negative |
| Optimizer.AttachAllKeepsNetwork | meetup/services/optimizer.py:140-149 | every edge of the network is still there, with its weight and line |
| Optimizer.JourneyDetails | meetup/services/optimizer.py:93-109 | None if and only if the destination is unreachable; otherwise the rounded shortest time and the lines of a shortest path, sorted and without repeats |
| Optimizer.AllLinesSpec | meetup/services/optimizer.py:211-214 | a line is used if and only if some detail's journey uses it |
| Optimizer.OutboundJourneys | meetup/services/optimizer.py:166-183 | one outbound detail per person, in order; None as soon as someone cannot reach the hub |
| Optimizer.HomewardJourneys | meetup/services/optimizer.py:186-207 | one return detail per person, in order; an unreachable home gives an unknown time and no lines |
| Optimizer.ScoreCandidate | meetup/services/optimizer.py:158-237 | an entry exists if and only if the hub exists and everybody can reach it; the entry holds the details, the lines and the four scores |
| Optimizer.CollectLines | meetup/services/optimizer.py:212-214 | a line is collected if and only if some journey detail uses it |
| Optimizer.ByKeyIsTotalPreorder | meetup/services/optimizer.py:250 | each sort key is a total preorder, so sorting by it is well defined |
| Optimizer.Rank | meetup/services/optimizer.py:243-267 | a list is the first five of the candidates sorted by the mode's score, with that score rounded |
| Optimizer.RankedSpotsOrdered | meetup/services/optimizer.py:243-267 | a ranked list shows non-decreasing rounded scores, and no candidate left out has a smaller rounded score than one shown |
| Optimizer.ScoreAll | meetup/services/optimizer.py:158-237 | one correct entry for each candidate that everybody can reach, with no station twice |
| Optimizer.LinkGroup | meetup/services/optimizer.py:140-149 | the graph copy becomes the network with every person's origin and home linked to their nearest stations |
| Optimizer.RankAll | meetup/services/optimizer.py:243-267 | four lists, each ranked by its own score |
| Optimizer.RankCandidates | meetup/services/optimizer.py:152-267 | the no-candidates error if and only if there is no candidate; the no-reachable error if and only if no candidate is reachable by all; otherwise the four top-five lists of correct entries |
| Optimizer.GroupNetworkReady | meetup/services/optimizer.py:136-149 | the network with the group linked in is undirected, with no negative weight when the tables have none |
| Optimizer.CalculateMeetupSpots | meetup/services/optimizer.py:112-274 | the need-two error if and only if fewer than two people; otherwise the outcome on the cached network with the group linked to their nearest stations |
| Sorting.SortBy | meetup/services/walking.py:65 | a sorted permutation of the input |
| Sorting.LexLeIsTotalPreorder | meetup/services/optimizer.py:108 | Python's string order is a total preorder |
| Sorting.SortedStrings | meetup/services/optimizer.py:108 | `sorted(set)` lists exactly the set's elements, in order and without repeats |
| Geocoding.PostcodeShapeMatches | meetup/services/geocoding.py:23-26 | the computed postcode test holds if and only if the regular expression matches the whole text |
| Geocoding.PostcodeShapeUpper | meetup/services/geocoding.py:23-26 | the postcode test ignores letter case |
| Geocoding.PostcodeExamples | meetup/services/geocoding.py:31-33 | "E1 6AN", "SW1A 1AA", "EC2R 8AH", "W1A 0AX" and "e1 6an" match the postcode pattern; "Old Street", "London", "123" and "" are not |
| Geocoding.NormalisePostcodeStable | meetup/services/geocoding.py:41 | normalising twice is normalising once, and the postcode test gives the same answer before and after |
| Geocoding.GeocodePostcode | meetup/services/geocoding.py:36-58 | the result is None if and only if the reply is not a 200 whose body has status 200 and a result; otherwise it is the place of that result |
| Geocoding.GeocodeIgnoresSpelling | meetup/services/geocoding.py:41 | two spellings of a postcode that differ only in case and surrounding whitespace are looked up the same way |
| Geocoding.LabelParts | meetup/services/geocoding.py:102-112 | one non-empty part per given field, in order, with city taking precedence over county |
| Geocoding.LabelMentions | meetup/services/geocoding.py:114 | the label contains every given field, falls back to the query, and is never empty for a non-empty query |
| Geocoding.PlacesPrefix | meetup/services/geocoding.py:97-119 | the places of the first features come first: later features only add places after them |
| Geocoding.PlacesSpec | meetup/services/geocoding.py:97-119 | each place comes from a feature with at least two coordinates (latitude second), and each such feature gives its place |
| Geocoding.FeaturePlaces | meetup/services/geocoding.py:97-119 | the feature loop returns the places of the usable features, in order |
| Geocoding.Autocomplete | meetup/services/geocoding.py:61-123 | a trimmed query under two characters gives nothing; a postcode that is found gives exactly its place; otherwise the free-text results |
| Disruptions.NameMap | meetup/services/disruptions.py:56-59 | the keys are the lower-cased requested names, each mapped to a requested name of that spelling |
| Disruptions.AppendLineReports | meetup/services/disruptions.py:69-77 | appends the reports of the line's degraded statuses |
| Disruptions.GetLineDisruptions | meetup/services/disruptions.py:24-82 | the result equals `DisruptionsOf` the filter and reply |
| Disruptions.LineReportsSpec | meetup/services/disruptions.py:69-77 | a line reports exactly its degraded statuses (severity, 10 when absent, below 10) |
| Disruptions.ReportsPrefix | meetup/services/disruptions.py:61-77 | reports of earlier lines come first: later lines only add reports after them |
| Disruptions.ReportsSpec | meetup/services/disruptions.py:61-77 | a report appears if and only if it is a degraded status of a wanted line, under that line's name |
| Disruptions.OnlyRequestedLines | meetup/services/disruptions.py:64-67 | with a filter, only requested lines are reported, whatever their letter case |
| Disruptions.NoFilterReportsAll | meetup/services/disruptions.py:57-65 | a missing filter and an empty filter report the same, and every degraded status is reported |
| Disruptions.FailureReportsNothing | meetup/services/disruptions.py:49-51 | a failed request or a non-200 reply reports nothing |
| Tools.CandidateInjective | tools/models.py:38-43 | different attempts try different slugs |
| Tools.FirstFreeUnique | tools/models.py:36-45 | the first free attempt is determined by the base and the taken slugs |
| Tools.UniqueSlug | tools/models.py:38-45 | the loop terminates with the first attempt not taken, so the slug is free |
| Tools.Tool.GenerateUniqueSlug | tools/models.py:36-45 | the slug is the first free attempt built from the slugified name |
| Tools.Tool.Save | tools/models.py:17-34 | a slug is generated only when there is none; a full save stamps `updated_at` with the save time (`auto_now`), so an edit saved after the last export makes the tool need exporting; name, content and export stamp stay |
| Tools.Tool.MarkExported | tools/management/commands/export_tools.py:54-55 | `last_exported` becomes the export time and `updated_at` is kept; stamped no earlier than the last update, the tool no longer needs exporting |
| Tools.CloseFrom | tools/models.py:53 | the first closing tag at or after the position, unless a line break comes first |
| Tools.CloseFromSpec | tools/models.py:53 | the closing tag found is the nearest one, with no line break before it |
| Tools.TitleFromSpec | tools/models.py:53 | the match found is the leftmost, and the shortest at that position |
| Tools.ExtractTitle | tools/models.py:50-56 | the title text or "Untitled Tool" |
| Tools.ExtractTitleSpec | tools/models.py:50-56 | the title is the text of the leftmost shortest match, case-insensitively; the fallback is used only when nothing matches or the content is empty |
| Tools.TitleOnOneLine | tools/models.py:53 | a title never spans a line break |
| Tools.ExportSettles | tools/models.py:63-68 | an export stamped at or after the last update means no export is needed |
| Tools.EditNeedsExport | tools/models.py:63-68 | a tool never exported, or updated after its last export, needs exporting |
| Blog.ExcerptOf | blog/models.py:73-76 | under 100 words the excerpt is the content; otherwise it is the first 100 words followed by "..." |
| Blog.LongPostExcerptShortened | blog/models.py:58-76 | a long post always gets a shortened excerpt of exactly 100 words plus "..." |
| Blog.ExcerptNonEmpty | blog/models.py:73-76 | non-empty content never gets an empty excerpt |
| Blog.SaveRulesSettle | blog/models.py:63-78 | saving again changes nothing, and a publication time once set stays |
| Blog.Tag.Save | blog/models.py:17-20 | the slug is made from the name only when there is none |
| Blog.Post.Save | blog/models.py:63-78 | fills in the slug, the publication time and the excerpt by the rules above; the title, content and published flag stay |
| Recipes.FillRulesSettle | recipes/models.py:51-66 | back-filling twice is back-filling once, and "Medium" and "Hard" are never replaced |
| Recipes.ListFieldSpec | recipes/models.py:78-91 | the `ingredients`, `instructions` and `notes` properties read back the list stored under their key, are unaffected by other keys, are empty for an empty document, and are non-empty only when the document has the key |
| Recipes.Recipe.BackFill | recipes/models.py:51-66 | each of the six fields is back-filled and the difficulty rule is applied; the slug, the document and the publication state stay |
| Recipes.Recipe.Save | recipes/models.py:49-76 | back-fills only with a non-empty document; the lists read from the document are unchanged; the slug comes from the filled name only when there is none; the publication time is set once |
| Projects.TechnologiesList | main/models.py:18-19 | one trimmed item per comma-separated piece, in order |
| Projects.TechnologiesListSpec | main/models.py:18-19 | one item more than there are commas; no item holds a comma or starts or ends with whitespace; text without a comma gives one trimmed item |
| Projects.PiecesRebuildField | main/models.py:19 | joining the untrimmed pieces with commas gives the field back |
| Text.Strip | main/models.py:19 | `strip()`: a contiguous slice with no whitespace at either end, which drops only whitespace |
| Text.Words | blog/models.py:61 | `split()`: the maximal runs of non-whitespace, in order |
| Text.WordsOfJoin | blog/models.py:76 | splitting words joined by single spaces gives the words back |
| Text.SplitOnCount | main/models.py:19 | `split(',')` has one more piece than there are commas |
| Text.SplitOnJoin | main/models.py:19 | joining the pieces of `split(',')` with commas gives the text back |
| Text.NatToStringInjective | tools/models.py:42 | distinct counters give distinct decimal texts |

## Left out

- Loading the CSV tables (graph.py lines 24-71) is not modelled. The stations, connections and interchanges tables are inputs, and the cache holds them as fields.
- `haversine_distance` is not modelled: trigonometry on floats is out of reach. Distance is a parameter `dist`, and `Walking.IsDistance` assumes only that it is non-negative, symmetric, and zero from a point to itself.
- Floating-point arithmetic is modelled on exact reals. `round(x, 1)` is exact rounding to the nearest tenth with ties to even. Binary representation effects are not modelled.
- HTTP requests, timeouts, logging and the environment's API key are not modelled. Each reply arrives as a value, and a request that raised is its own alternative of the reply type. The `limit` of `autocomplete` only changes the Photon request, so it is passed through to the reply function.
- Case folding and `\d` cover ASCII only: `lower()`, `upper()` and IGNORECASE are not modelled for non-ASCII characters. Whitespace (`str.isspace()`, `\s`) is Python's complete set, non-ASCII characters included.
- The iteration order of Python dicts and sets, and the resulting tie-breaking, is not modelled. Where the order decides a tie, the model proves the result for every order:
  - which station keeps a name shared by two stations in `get_station_lookup`;
  - the order of equal keys in sorts;
  - which of several shortest paths `get_journey_path` returns.
- Sorting.SortBy: the stability of Python's sort is not stated; entries with equal keys may come out in any order.
- Routing.Dijkstra: networkx's binary heap and its tie-breaking counter are not modelled. The least frontier node is taken from a map, and only the distance and the shortest-path property are promised, not networkx's exact path among ties.
- Negative edge weights are not modelled. networkx raises `ValueError` on them, but the tables hold journey minutes, so the graph functions require non-negative weights, and `Optimizer.CalculateMeetupSpots` requires non-negative table times.
- The `name_to_id` dictionary built in `_build_graph` (graph.py lines 117-119) is never used, and is not modelled.
- Display attributes of nodes and edges (names, coordinates, colours) are not modelled. Node identifiers are a datatype rather than encoded strings.
- The Google Maps URL of each spot (optimizer.py lines 253-256) is not modelled. The spot's other output fields, including the per-person outbound and homeward details and the lines used, are.
- `_remove_virtual_nodes` is never called: the optimizer works on a copy and its `finally` does nothing. It is not modelled.
- Concurrent callers sharing the module-level cache are not modelled.
- `Tool.increment_view_count` is not modelled: it is one atomic database update and a reload, with no logic of its own.
- Django's `slugify` and `timezone.now()` are not modelled. They are parameters, and the existing slugs of the database query are a set.
- Tools.Tool.NeedsExport: the predicate carries no ensures of its own; `Tools.ExportSettles` and `Tools.EditNeedsExport` state its behaviour in both directions.
- Tools.Tool.MarkExported: the export command's file writing and its error handling are not modelled; only the stamp it saves is.
- Recipes.Recipe.Save: `updated_at` and `created_at` are not modelled, and neither are `Blog.Post`'s `created_at` and `updated_at` (blog/models.py lines 45-46) or `Tools.Tool`'s `created_at` (tools/models.py line 16); no modelled operation reads them.
- Replies holding a JSON `null` where an object or a string is expected are not modelled: a `null` `geometry` or `properties` in a geocoding feature (geocoding.py lines 98-99), or a `null` line `name` under a filter (disruptions.py line 66). The source raises `AttributeError` on them; the reply types have no such value.
- Disruptions.GetLineDisruptions: a `None` severity, which raises `TypeError` in the source, is not modelled; the severity is an integer or absent.
- Geocoding.GeocodePostcode: a result missing the postcode, latitude or longitude keys, which raises `KeyError` in the source, is not modelled; the record always has them.
- Recipes.Recipe.Save: a `recipe_data` that is not a JSON object is not modelled. The field values are JSON values, and the back-filled attributes hold whatever the document stores.
- Recipes.Recipe.BackFill: the seven assignments run unconditionally, through functions that keep a set field. The end state is the same as the source's conditional assignments.
