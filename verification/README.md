# Graph traversal: node registry, graph builder and breadth-first search

This project models the core of a small C program. The program reads a
description of a directed graph, builds the graph, and answers whether one
node can be reached from another. Three parts are modelled:

- **The node registry and adjacency store** (`graph.c`), in `graph.dfy`.
  - A graph is a class. It has a fixed capacity and stores, for each node in
    insertion order, the node's name, its visited flag and its neighbour list.
  - A node is its index; a neighbour list holds node indices.
  - Operations: creating an empty graph, the emptiness and edge tests,
    inserting a node, looking a node up by name, reading, setting and
    clearing visited flags, inserting an edge, and copying a neighbour list.
- **The line classifiers and the graph builder** (`is_connected.c`).
  - `lines.dfy` holds the blank, comment and alphanumeric tests.
  - `build.dfy` describes a description's meaning with the pure function
    `Build`. Given the lines of a description, it returns either the names
    and neighbour lists the builder produces or the reason the description
    is refused:
    - the first line that is read must declare an edge count N;
    - each following line must name the source and destination of one edge;
    - exactly N edge lines must follow.
  - The imperative builder `BuildGraph` reads the lines one at a time into a
    `Graph` object. It is proved to agree with `Build`.
  - Lemmas give the shape of an accepted description and its errors.
- **The search** (`find_path`), in `reach.dfy`. It is a breadth-first search
  over the visited flags and a FIFO queue. It is proved to answer "some node
  named like the destination is reachable from the source". The flags are
  proved to be cleared again on both exits.

`common.dfy` holds the `Option` and `Result` types.

The order of a neighbour list is decided by the list library, which is not
part of this model, so neighbour lists are specified up to order, as
multisets. `find_path` reads the lists in order, but its answer does not
depend on that order: `Reach.ReachesSameNeighbours` shows that reachability
is the same for any two families of lists with the same neighbours.

## Model

| member | source | states |
|---|---|---|
| Lines.FirstNonWhiteSpace | is_connected.c:29-46 | -1 exactly when the line is all white space; otherwise the position of the first non-white-space character, with only white space before it |
| Lines.LineIsBlank | is_connected.c:51-54 | a line is blank iff every character is white space |
| Lines.LineIsComment | is_connected.c:59-62 | a line is a comment iff its first non-white-space character is `#` |
| Lines.LineIsAlphanumeric | is_connected.c:67-76 | true iff at least one character is a letter or digit |
| Lines.CommentIsNotBlank | is_connected.c:51-62 | no line is both a comment and blank |
| Lines.BlankIsNotAlphanumeric | is_connected.c:51-76 | a blank line has no letter or digit, so the alphanumeric test alone would skip it |
| Lines.Ignorable | is_connected.c:108-110 | a line is skipped iff it is a comment or holds no letter or digit (a blank line holds none) |
| Graphs.IndexOf | graph.c:135-152 | the node a lookup finds has the name looked for, and no earlier node has that name |
| Graphs.IndexOfAppend | graph.c:106-152 | storing more nodes does not change which node a lookup by an existing name finds |
| Graphs.Graph.constructor | graph.c:54-61 | a new graph has the requested capacity and no nodes |
| Graphs.Graph.IsEmpty | graph.c:69-71 | a graph is empty iff it stores no node |
| Graphs.Graph.InsertNode | graph.c:106-126 | appends one node with the given name, an unset flag and no neighbours; it never merges equal names; everything else is unchanged |
| Graphs.Graph.FindNode | graph.c:135-152 | `None` iff no stored node has the name; otherwise the first node with that name |
| Graphs.Graph.IsSeen | graph.c:161-168 | returns the node's visited flag |
| Graphs.Graph.SetSeen | graph.c:178-182 | changes the flag of that node and of no other node, and nothing else |
| Graphs.Graph.ResetSeen | graph.c:190-202 | every flag is cleared; names and neighbour lists are unchanged |
| Graphs.Graph.InsertEdge | graph.c:214-220 | the target is added once to the source's neighbours; every other list, name and flag is unchanged |
| Graphs.Graph.Neighbours | graph.c:270-284 | the copy holds the same neighbours, each as often, all of them stored nodes |
| Graphs.Graph.HasEdgesAsWritten | graph.c:79-94 | the edge test as coded: true iff every node has a neighbour |
| Graphs.HasEdgesAsWrittenCounterexample | graph.c:73-94 | the coded test and the documented one disagree on the empty graph and on `[[1], []]` |
| Graphs.Graph.HasEdges | graph.c:73-78 | the documented edge test: true iff some node has a neighbour |
| Reach.ReachesStep | is_connected.c:186-195 | following one edge from the source, or from a node reachable from it, reaches the neighbour |
| Reach.WalkStaysInClosed | is_connected.c:179-209 | a walk starting in a set that holds all neighbours of its members never leaves it |
| Reach.ClosedContainsReachable | is_connected.c:179-209 | such a set holds everything reachable from its members; this is why the search can answer false when the queue runs dry |
| Reach.UnmarkedAfterMark | is_connected.c:192-195 | marking an unmarked node leaves exactly one node fewer unmarked, so each node is enqueued at most once and the search ends |
| Reach.ExploreStep | is_connected.c:192-195 | marking and enqueueing an unmarked neighbour keeps every enqueued node reachable from the source, enqueued once, and not named like the destination |
| Reach.ExpandedAllIsClosed | is_connected.c:179-209 | once every enqueued node has been expanded, the marked nodes hold all neighbours of their members |
| Reach.Visit | is_connected.c:189-204 | an unmarked neighbour is marked and enqueued; the hit is reported iff the neighbour has the destination's name, and a hit is reachable |
| Reach.ScanNeighbours | is_connected.c:184-207 | stops on a reachable node named like the destination; otherwise every neighbour is marked and the node counts as expanded |
| Reach.FindPath | is_connected.c:160-213 | true iff source and destination have the same name (graph.c:44-46), or a node named like the destination is reachable from the source; flags are all clear on both exits; names and lists are unchanged |
| Build.DigitsEnd | is_connected.c:115 | the digit run read by `%i` ends at the first non-digit |
| Build.ParseCount | is_connected.c:115 | a number is read iff a digit follows the leading white space and an optional sign; a negative number was written with `-` |
| Build.ParseCountOfDecimal | is_connected.c:115 | a line holding an indented decimal number, followed by nothing or by anything not starting with a digit (such as a line break), declares that number |
| Build.ParseCountNone | is_connected.c:115-120 | a line whose first non-white-space character is not a sign or digit declares no count |
| Build.CountOf | is_connected.c:92-117 | the count is -1 exactly when no number is read (the variable keeps its initial -1) or the number read is -1 |
| Build.Capacity | is_connected.c:116 | room for two nodes per declared edge: an even number, twice a non-negative count, and none for a negative count |
| Build.TokenEnd | is_connected.c:126 | a `%40s` name stops at white space, at the end of the line, or after 40 characters |
| Build.EdgeTokens | is_connected.c:126 | the names read are non-empty, at most 40 characters long, and hold no white space |
| Build.EdgeTokensRoundTrip | is_connected.c:126 | a line holding two names of at most 40 characters without white space, possibly indented, separated by any white space, and followed by nothing or by white space and anything else (a line break, a third name, which is ignored) gives exactly those two names |
| Build.EdgeTokensOfPieces | is_connected.c:126 | in any line made of white space, a short name, white space, a short name, and then the end or white space, the two names read are the two name segments |
| Build.Content | is_connected.c:106-110 | no line the builder reads is one it skips |
| Build.ContentAppend | is_connected.c:106-110 | the lines read from a description are those read from its parts, in order |
| Build.AddEdge | is_connected.c:127-131 | one edge line keeps the store well formed: one neighbour list per node, every neighbour a stored node |
| Build.EdgeLineStep | is_connected.c:126-131 | a line read as an edge line keeps the store well formed, keeps the names before it and adds exactly two within the capacity; it is refused only as malformed or as too many edges |
| Build.EdgeLineStepOk | is_connected.c:125-133 | one edge line is read iff it holds two names and two more nodes fit the capacity |
| Build.Edges | is_connected.c:114-133 | N edge lines read without error store 2N nodes, within the capacity |
| Build.EdgesErrorIsFinal | is_connected.c:125-133 | after the first refused edge line, later lines do not change the outcome |
| Build.ContentSnocEdges | is_connected.c:125-133 | one more content line after the count line is one more edge step, and the count line stays first |
| Build.EdgesOkIff | is_connected.c:114-133 | edge lines are read without error iff each holds two names and their nodes fit the capacity |
| Build.FromContent | is_connected.c:92-141 | with no line read, the description is refused as a count mismatch (the count stays -1 while 0 edges were read); an accepted graph is well formed and stores two nodes per edge line, which equals twice the declared count |
| Build.Build | is_connected.c:86-149 | an accepted description denotes a well-formed graph with twice as many nodes as the count its first line read declares |
| Build.SkippedLinesDoNotMatter | is_connected.c:108-110 | inserting a comment, blank or non-alphanumeric line anywhere does not change the outcome |
| Build.ContentDropsSkipped | is_connected.c:108-110 | dropping one skipped line from the middle of a description leaves the lines read from it unchanged |
| Build.BuildOkIff | is_connected.c:86-149 | a description is accepted iff some line is read, every later line read holds two names, and the first declares exactly that many edges |
| Build.WrongEdgeCount | is_connected.c:114-141 | with well-formed edge lines: more lines than declared is refused as too many edges; fewer is refused as a count mismatch |
| Build.FirstErrorIsTooMany | is_connected.c:114-133 | more well-formed edge lines than the room for 2N nodes allows are refused as too many edges |
| Build.NoCountIsFinal | is_connected.c:114-120 | once the first line read declares no count, the description is refused whatever follows |
| Build.EdgeErrorIsFinal | is_connected.c:125-133 | once an edge line is refused, the description is refused with that error whatever follows |
| Build.EdgeErrorInContent | is_connected.c:125-133 | when the edge lines of the content read so far are already refused, any further content lines give that same refusal |
| Build.AddEdgeKeeps | graph.c:214-220 | an edge line keeps every existing edge |
| Build.AddEdgeNew | is_connected.c:127-131 | an edge line appends its two names and adds the edge between the first nodes bearing them |
| Build.AddEdgeAdds | is_connected.c:127-131 | after an edge line, the edges are exactly the old ones plus the one it names |
| Build.EdgesLastOk | is_connected.c:125-133 | when edge lines are read without error, the earlier lines were too, and the last line added its edge |
| Build.EdgesShape | is_connected.c:125-133 | edge line k stores nodes 2k and 2k+1 under its two names, plus an edge between the first nodes bearing those names |
| Build.EdgesOnlyFromLines | is_connected.c:125-133 | every stored edge is the edge some edge line names |
| Build.BuildIsEdges | is_connected.c:114-141 | an accepted description declares exactly as many edges as it has edge lines, and denotes what those lines give |
| Build.BuildEdgeLine | is_connected.c:125-133 | in an accepted description, edge line i is stored as nodes 2i and 2i+1 and its edge |
| Reach.WalkSameNeighbours | graph.c:214-220 | a walk stays a walk when each neighbour list is replaced by one with the same elements |
| Reach.ReachesSameNeighbours | graph.c:214-220 | reachability does not depend on the order of neighbour lists |
| Build.SameNeighboursAfterEdge | graph.c:214-220 | an edge inserted into the graph object and into the store it stands for keeps their lists equal up to order |
| Build.StoreEdge | is_connected.c:127-131 | inserts two nodes and the edge; the graph's names and lists follow `AddEdge`, and no flag is set |
| Build.StartGraph | is_connected.c:114-116 | returns the declared count (-1 when none is declared) and a fresh empty graph with room for two nodes per declared edge |
| Build.ReadEdgeLine | is_connected.c:125-133 | on a refusal, returns the error `Edges` gives; otherwise the graph follows one more step of `Edges` |
| Build.ReadLine | is_connected.c:107-133 | one turn of the loop on one line: either the error the whole description is refused with, or the loop's state after that line (lines read, counters, and a graph that follows `Edges`) |
| Build.ReadLines | is_connected.c:106-134 | on a refusal, returns the error `Build` gives; otherwise the count of edges read and a graph that follows `Edges` over the content lines |
| Build.BuildGraph | is_connected.c:86-149 | refuses exactly with the error `Build` gives; otherwise returns a valid graph with no flag set, the names `Build` gives, and the same neighbours node by node |

## Left out

- The program's entry point, file opening and closing, command-line and
  console I/O, and the messages printed on errors are not modelled.
  - `BuildGraph` takes the file's lines as a sequence of strings.
  - The two exits of the builder that judge the description (no count,
    is_connected.c:117-120; wrong number of edges, is_connected.c:138-141)
    become `Err` results. The exits when the file cannot be opened or
    closed (is_connected.c:100-103, 144-147) belong to the file I/O left out.
- `fgets` reads lines into a 300-byte buffer, so longer lines arrive in
  pieces. The model treats every line as one line.
- Memory management is not modelled: allocation, `graph_kill` and the
  freeing of lists and queues.
- The internals of the doubly linked list, queue and bounded array
  libraries are not part of this model:
  - a neighbour list is a sequence;
  - the queue is a sequence taken from the front;
  - the node array is a sequence whose length is bounded by the capacity.
- `graph_delete_node`, `graph_delete_edge` and `graph_choose_node` are
  stubs with no effect or a constant null result. No member models them.
- The count is read as `%i` reads a decimal number. Its hexadecimal (`0x`)
  and octal (leading `0`) forms and locale-dependent white space are not
  modelled.
- `int` overflow of `edge_amount`, of `2 * edge_amount` and of the node
  counter is not modelled: integers are unbounded.
- A negative count other than -1 makes the C capacity negative. The model
  gives it no room, so any edge line holding two names is refused as too
  many edges (a line with one name is still refused as malformed first).
- `Build.EdgeLineStep`: an edge line holding one name is refused as
  `MalformedEdgeLine`.
  - The C code instead reuses the name a previous line left in
    `second_node`, or reads an uninitialised buffer on the first edge line.
- `Build.EdgeLineStep`: a line that would store more nodes than the
  capacity is refused as `TooManyEdges`.
  - The C code writes past the end of its node array there (undefined
    behaviour), then fails later with "Wrong number of edges!".
- `Graphs.Graph.InsertEdge` promises the new neighbour list only up to
  order, as a multiset. The C code inserts at the list's first position;
  where the new neighbour ends up depends on the list library, which is not
  part of this model.
- `Graphs.Graph.Neighbours` promises the copy only up to order. The order of
  the C copy depends on what the list library's insert returns, which is not
  part of this model.
- `Reach.FindPath` promises the answer and the final state, not the order
  in which nodes are visited.
- `Build.BuildGraph` promises the built graph's neighbour lists equal to
  `Build`'s only up to order.
- Lines are taken as C strings: the model assumes a line holds no NUL
  character. The C functions stop at the first NUL; the model reads the whole
  sequence, so a line with an embedded NUL can be classified differently.
- `Lines.LineIsAlphanumeric` follows the code: one letter or digit is
  enough. The function's own comment says the line must hold only letters
  and digits.

## Findings

| source | as written | input that shows it | evidently intended | confidence | as-written member | corrected member |
|---|---|---|---|---|---|---|
| graph.c:79-94 | `graph_has_edges` returns false as soon as some node has no neighbours, and true on a graph with no nodes | the graph with no nodes (true, but it has no edge); nodes 0 and 1 with the single edge 0 -> 1 (false, but it has an edge) | true iff some node has a neighbour, as its documentation and inline comment say | high (not executed) | Graphs.Graph.HasEdgesAsWritten, Graphs.HasEdgesAsWrittenCounterexample | Graphs.Graph.HasEdges |
