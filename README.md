# Cyanea simulator cores in Dafny

This project models the small self-contained computations behind several browser
simulators of the Cyanea bioinformatics site, and proves properties of them.

- **Phylogenetic tree builder.** `parseNewick`, a recursive-descent Newick reader with one
  forward-only cursor that never rejects input. `layoutTree` and `getLeaves`. Inside
  `drawNewickTree`: `assignY`, which numbers the leaves and centres every inner node;
  `maxDepth` with its `|| 1` fallback; the pixel mapping `toX`/`toY`; and `drawNode` plus the
  root stem, which draw a right-angled cladogram in pre-order. Canvas calls are recorded as a
  list of `Segment`s (line, label, dot) on a `Canvas` object.
- **GPU parallel patterns.** The four `animate` functions (Map, Reduce, Scatter, Stencil).
  Each labels every cell of the array idle, active, done or merging for an animation frame.
- **Alignment display.** `matchLine` of the alignment crate page. The pairwise simulator's
  input cleaning, its per-column match/mismatch shading and middle-row symbol, and the three
  rows it renders.
- **FASTA/FASTQ inspector.** Format detection from the first character of the trimmed content,
  `escapeHtml`, and the Phred-score accumulation of `renderFastq` together with its average
  quality.

Modules follow the source. `Newick`, `TreeLayout`, `TreePositions` and `Cladogram` model the
stages of the tree builder. `NewickRoundTrip` is a Newick writer, used as the parser's
reference partner. `Samples` holds worked instances, and `SampleLetters` the characters of the sample text. `GpuPatterns`, `Alignment` and
`SeqFormats` model the secondary simulators. `JsText` models `String.prototype.trim`,
`Seqs` holds a counting function, and `Wrappers` holds `Option`.

Dafny `real` stands for JavaScript numbers in the tree geometry, so the arithmetic is exact.
Strings are `seq<char>`. `parseFloat` is a parameter `read: string -> Option<real>`: `None`
stands for NaN. Whatever the wasm parsers and aligners return is an input.

## Model

| member | source | states |
|---|---|---|
| Newick.ParseNewick | static/js/sims/phylogenetic-tree-builder.js:111-145 | the cursor-threading parser returns exactly the tree the functional parser `Parsed` reads from the prepared text; it is total, with no error path |
| Newick.PrepareSpec | static/js/sims/phylogenetic-tree-builder.js:112 | only a `;` that is the very last character is removed, then the text is trimmed; the prepared text has no white space at either end |
| Newick.ParseAt | static/js/sims/phylogenetic-tree-builder.js:115-142 | the cursor never moves backwards; a node starting with `(` gets at least one child; a node without `(` gets none |
| Newick.ReadName | static/js/sims/phylogenetic-tree-builder.js:127-131 | the name scan stops at the first `:`, `,`, `)` or `;` (or the end), never runs past the end, and the name is the trimmed run |
| Newick.ReadNameSpec | static/js/sims/phylogenetic-tree-builder.js:127-131 | between the cursor and the position where the scan stops there is no `:`, `,`, `)` or `;`, and the name is exactly the trimmed text between the two |
| Newick.NameTextUpTo | static/js/sims/phylogenetic-tree-builder.js:128-130 | conversely, a run free of stop characters that ends at a stop character or at the end of the text is exactly what the name loop collects |
| Newick.ReadLength | static/js/sims/phylogenetic-tree-builder.js:133-140 | the length is 0 and the cursor stays put unless a `:` is at the cursor; after `:` exactly the longest run of `0123456789.eE-+` characters is consumed, and its conversion (NaN as 0) is the length |
| Newick.ReadLengthSpec | static/js/sims/phylogenetic-tree-builder.js:133-140 | after a `:` every consumed character is one of `0123456789.eE-+`, and the length is the conversion (NaN as 0) of exactly the consumed text |
| Newick.NumberTextUpTo | static/js/sims/phylogenetic-tree-builder.js:136-138 | conversely, a run of number characters that ends at another character or at the end of the text is exactly what the number loop collects |
| Newick.ParseSubtree | static/js/sims/phylogenetic-tree-builder.js:115-142 | one `parse()` call with the closure's cursor passed in and returned computes `ParseAt` |
| Newick.ParseGroup | static/js/sims/phylogenetic-tree-builder.js:117-125 | the child-list branch (first subtree, the comma loop, the blind skip of the closing character) computes `GroupAt` |
| Newick.ParseSiblings | static/js/sims/phylogenetic-tree-builder.js:120-123 | the `while (s[pos] === ',')` loop appends one subtree per comma, as `ChildrenAt` says |
| Newick.ScanName | static/js/sims/phylogenetic-tree-builder.js:127-131 | the character-by-character name loop computes `ReadName` |
| Newick.ScanLength | static/js/sims/phylogenetic-tree-builder.js:133-140 | the branch-length loop computes `ReadLength` |
| NewickRoundTrip.SerializeThenParse | static/js/sims/phylogenetic-tree-builder.js:111-145 | every tree whose names avoid the structural characters and outer white space, and whose written lengths read back, is parsed back unchanged from its Newick text with a trailing `;`: one child per comma-separated subtree, in notation order |
| Samples.UnclosedGroup | static/js/sims/phylogenetic-tree-builder.js:117-125 | the closing `)` is skipped unchecked, so `(A,B` reads as a root over the leaves A and B |
| Samples.SampleParse | static/js/sims/phylogenetic-tree-builder.js:111-145 | the guide tree text `((A:0.1,B:0.1):0.05,C:0.15);` of the phylogenetics page parses, with a number reader that reads its three lengths, to `SampleTree`: an unnamed root over the unnamed `(A,B)` of length 0.05 and `C` of length 0.15 |
| TreeLayout.LayoutTree | static/js/sims/phylogenetic-tree-builder.js:147-160 | the recursive copy with the `forEach` accumulator computes `Layout` |
| TreeLayout.LayoutFields | static/js/sims/phylogenetic-tree-builder.js:148-159 | `x` is the parent's depth plus the node's length; `leaves` is the number of `getLeaves` leaves; each child's `y` is reset to the leaf count of its earlier siblings |
| TreeLayout.LayoutLeaves | static/js/sims/phylogenetic-tree-builder.js:149-159 | the `leaves` of a node, 1 for a leaf and for an inner node the `leafCount += c.leaves` sum over its laid-out children, equals `getLeaves(node).length` |
| TreeLayout.LeafCountSum | static/js/sims/phylogenetic-tree-builder.js:152-156 | an inner node's leaf count is the sum of its children's leaf counts |
| TreeLayout.LayoutYBounds | static/js/sims/phylogenetic-tree-builder.js:157-159 | an inner node's `y` (mean child centre minus 0.5) lies in `[0, leaves - 1]` |
| TreeLayout.StripLayout | static/js/sims/phylogenetic-tree-builder.js:147-160 | the layout keeps name, length and children: removing its fields gives the original tree back |
| TreeLayout.LeavesAreLeaves | static/js/sims/phylogenetic-tree-builder.js:162-165 | `getLeaves` returns only childless nodes (at least one, and a leaf gives itself) |
| TreePositions.AssignY | static/js/sims/phylogenetic-tree-builder.js:174-183 | the recursion with its shared `leafIdx` counter computes `Assigned`; the counter advances by the number of leaves |
| TreePositions.AssignChildren | static/js/sims/phylogenetic-tree-builder.js:180 | `node.children.forEach(assignY)` places the children left to right, threading the counter |
| TreePositions.ReduceY | static/js/sims/phylogenetic-tree-builder.js:181 | the `reduce` loop returns the sum of the children's `yPos` |
| TreePositions.AssignedLeafYs | static/js/sims/phylogenetic-tree-builder.js:175-178 | the leaves of every subtree started at counter `k` receive exactly `k, k+1, …, k+n-1`, a contiguous range, in order |
| TreePositions.AssignedLeafNames | static/js/sims/phylogenetic-tree-builder.js:175-180 | the placed leaves are the `getLeaves` leaves, in the same order |
| TreePositions.AssignedPlacement | static/js/sims/phylogenetic-tree-builder.js:181 | every node's `yPos` lies in its leaves' index range `[k, k+n-1]`, and every inner node's `yPos` is the mean of its children's and lies between their minimum and maximum |
| TreePositions.UnplaceAssigned | static/js/sims/phylogenetic-tree-builder.js:175-182 | `assignY` only adds positions: removing them gives the tree back |
| TreePositions.MinMaxOf | static/js/sims/phylogenetic-tree-builder.js:212-213 | `Math.min`/`Math.max` of a non-empty list are elements of it and bound every element |
| TreePositions.MaxDepthIsDeepestLeaf | static/js/sims/phylogenetic-tree-builder.js:186-190 | `maxDepth` is the root-to-leaf length sum (root's own length included) of some leaf, and no leaf is deeper |
| TreePositions.MaxD | static/js/sims/phylogenetic-tree-builder.js:191 | `maxD` is never 0, and it is `maxDepth` whenever that is not 0 |
| TreePositions.LayoutLeafXs | static/js/sims/phylogenetic-tree-builder.js:147-160 | the `x` that `layoutTree` gives the leaves, left to right, are the root-to-leaf length sums that `maxDepth` ranges over |
| Cladogram.Denominator | static/js/sims/phylogenetic-tree-builder.js:198 | `numLeaves - 1 \|\| 1` is never 0: `n - 1` from two leaves on, 1 for one leaf |
| Cladogram.FrameEnds | static/js/sims/phylogenetic-tree-builder.js:193-198 | `toX(0) = 40`, `toX(maxD) = w - 120`, `toY(0) = 30`, `toY(n-1) = h - 30` when `n > 1`, and with one leaf the vertical denominator is 1 |
| Cladogram.ToXMono | static/js/sims/phylogenetic-tree-builder.js:197 | on a canvas wide enough for the padding and with positive depth scale, `toX` is monotone |
| Cladogram.ToYMono | static/js/sims/phylogenetic-tree-builder.js:198 | on a canvas tall enough for the padding, `toY` is monotone |
| Cladogram.NodeLabels | static/js/sims/phylogenetic-tree-builder.js:203-241 | the labels a subtree's drawing writes are its leaves' names, each on the row of its leaf's `yPos`, left to right |
| Cladogram.PictureLabels | static/js/sims/phylogenetic-tree-builder.js:226-232 | the whole drawing labels the `getLeaves` names in order, the j-th on row `toY(j)`: the first at 30 and, from two leaves on, the last at `h - 30` |
| Cladogram.NodeAtLayoutX | static/js/sims/phylogenetic-tree-builder.js:203-205 | the depth `drawNode` recomputes from `parentDepth` is the `x` that `layoutTree` gave the node: an inner node's bar stands at `toX(x)`, and a leaf's label at `toX(x) + 8` and its dot at `toX(x)` |
| Cladogram.NodeDots | static/js/sims/phylogenetic-tree-builder.js:203-241 | the leaf dots of a subtree's drawing stand, left to right, at `toX` of the `x` that `layoutTree` gives its leaves |
| Cladogram.PictureDots | static/js/sims/phylogenetic-tree-builder.js:238-252 | in the whole drawing the leaf dots stand, in `getLeaves` order, at `toX` of the layout's leaf `x`, which are the leaf depths |
| Cladogram.DeepestDot | static/js/sims/phylogenetic-tree-builder.js:191-197 | when `maxDepth` is not 0, some leaf dot stands at `w - 120`, the right end of the plot |
| Cladogram.RowEnds | static/js/sims/phylogenetic-tree-builder.js:198 | the rows of leaf positions `0 … n-1` start at the top padding and end at the bottom padding |
| Cladogram.BarMeetsBranch | static/js/sims/phylogenetic-tree-builder.js:208-214 | a centred node's own row lies between the ends of its vertical bar, so the branch into it meets the bar |
| Cladogram.RootStemInPlot | static/js/sims/phylogenetic-tree-builder.js:243-250 | the first segment drawn is the root stem, a line whose row lies within `[30, h - 30]` |
| Cladogram.Canvas.Draw | static/js/sims/phylogenetic-tree-builder.js:211-214 | drawing a segment appends it and changes nothing else |
| Cladogram.DrawNode | static/js/sims/phylogenetic-tree-builder.js:203-241 | appends exactly the pre-order segments of the subtree: for an inner node its vertical bar from min to max child row, then per child a horizontal branch from the parent's x to `toX(depth + c.length)` followed by the child's drawing; for a leaf a label at `x + 8` and a dot |
| Cladogram.DrawNewickTree | static/js/sims/phylogenetic-tree-builder.js:167-252 | parse, layout, leaf count, `assignY`, `maxD`, the root stem from `toX(0)` to `toX(root.length)`, then `drawNode(layout, 0)`: appends exactly `TreePicture` |
| Samples.SamplePlacement | static/js/sims/phylogenetic-tree-builder.js:174-191 | for `SampleTree`, the tree `SampleParse` reads from the guide tree text, `assignY` gives the leaves 0, 1, 2, the inner node 0.5 and the root 1.25, and `maxD` is 0.15 |
| JsText.TrimSpec | static/js/sims/phylogenetic-tree-builder.js:112 | `trim` removes exactly the leading and trailing JavaScript white-space run and keeps the middle slice |
| JsText.TrimIdempotent | static/js/sims/fasta-fastq-format-inspector.js:50 | trimming twice is trimming once |
| GpuPatterns.Animate | static/js/sims/gpu-parallel-patterns.js:4-55 | every pattern returns one state per cell |
| GpuPatterns.Levels | static/js/sims/gpu-parallel-patterns.js:16 | `Math.ceil(Math.log2(size))` is the least `L` with `2^L >= size` |
| GpuPatterns.OnlyReduceMerges | static/js/sims/gpu-parallel-patterns.js:7-54 | only Reduce ever labels a cell merging |
| GpuPatterns.Periodic | static/js/sims/gpu-parallel-patterns.js:8-46 | Map, Scatter and Stencil repeat with period `size` |
| GpuPatterns.MapProgress | static/js/sims/gpu-parallel-patterns.js:7-10 | with `idx = frame mod size`, a cell is done iff it is one of `0 … idx`, active iff it is `idx + 1`, and idle iff it lies beyond `idx + 1`; so `idx + 1` cells are done and one is active unless `idx` is the last cell |
| GpuPatterns.MapComplete | static/js/sims/gpu-parallel-patterns.js:8-9 | at `idx = size - 1` every cell is done |
| GpuPatterns.ReduceStart | static/js/sims/gpu-parallel-patterns.js:20 | frame 0 marks every cell active |
| GpuPatterns.ReduceSettles | static/js/sims/gpu-parallel-patterns.js:16-17 | from frame `levels` on, Reduce no longer changes |
| GpuPatterns.ReduceResult | static/js/sims/gpu-parallel-patterns.js:14-26 | at the saturated level (size at least 2) cell 0 is the only active cell, one result remaining |
| GpuPatterns.ReduceMerges | static/js/sims/gpu-parallel-patterns.js:18-22 | in every frame after the first, cell `2^(level-1)` exists and is merging |
| GpuPatterns.ScatterProgress | static/js/sims/gpu-parallel-patterns.js:32-39 | with `f = frame mod size`, cell `f` is the only active cell, the cells after it are idle, and a cell before it is done iff `(7i + 3) mod size = i` |
| GpuPatterns.StencilProgress | static/js/sims/gpu-parallel-patterns.js:45-52 | with `idx = frame mod size`, the active cells are exactly the existing ones in `[idx-1, idx+1]` (one to three); those below are done and those above idle |
| Alignment.MatchLineColumns | static/js/crates/cyanea-align.js:169-171 | column i is `\|` iff the characters are equal (two gaps included), a space iff they differ and one is `-`, `.` iff they differ and neither is; columns past the target count as differing; no other symbol occurs |
| Alignment.MatchLineSelf | static/js/crates/cyanea-align.js:170 | `matchLine(q, q)` is all `\|` |
| Alignment.ClassesPartition | static/js/sims/pairwise-sequence-alignment.js:71-72 | match and mismatch never hold together; a column with a gap is neither, and a gap-free column is one of them |
| Alignment.ShadeSymmetric | static/js/sims/pairwise-sequence-alignment.js:71-73 | swapping the roles, as the target row does, gives the same shade |
| Alignment.MidSymbolAgreesWithShade | static/js/sims/pairwise-sequence-alignment.js:84 | the middle symbol is `\|` iff the column is a match, `.` iff a mismatch, a space iff neither (a gap on either side, tested first) |
| Alignment.RenderAlignment | static/js/sims/pairwise-sequence-alignment.js:66-107 | the three row loops produce the query row, the middle row and the target row, and the Length stat is the aligned query length |
| Alignment.RowsAgree | static/js/sims/pairwise-sequence-alignment.js:69-98 | query and target rows shade every shared column alike, and the middle row names that shade |
| Alignment.MiddleRowVersusMatchLine | static/js/sims/pairwise-sequence-alignment.js:84 | the middle row and `matchLine` differ exactly in the columns where two gaps are aligned; there `matchLine` shows `\|` and the middle row a space |
| Alignment.CleanSpec | static/js/sims/pairwise-sequence-alignment.js:37-38 | the cleaned input consists of A, C, G and T only, an input of bases alone is unchanged, and cleaning is idempotent |
| Alignment.CleanIgnoresTrim | static/js/sims/pairwise-sequence-alignment.js:37-38 | the `trim` has no effect on the cleaned sequence, because white space is filtered out anyway |
| Alignment.PrepareInputsSpec | static/js/sims/pairwise-sequence-alignment.js:37-43 | no alignment is attempted iff one of the inputs contains no letter a, c, g or t in either case; otherwise the two cleaned sequences are aligned |
| SeqFormats.InspectSpec | static/js/sims/fasta-fastq-format-inspector.js:50-78 | nothing is inspected iff the trimmed content is empty; the format is FASTQ iff it starts with `@`, FASTA iff with `>`, else Unknown; the renderer always matches the badge, though the two test the flags in opposite orders |
| SeqFormats.InspectIgnoresSpace | static/js/sims/fasta-fastq-format-inspector.js:50 | white space around the content does not change what is shown |
| SeqFormats.EscapeHtmlSinglePass | static/js/sims/fasta-fastq-format-inspector.js:196-198 | the three chained global replacements equal one pass that escapes each `&`, `<` and `>` and leaves every other character: inserted entities are not re-escaped |
| SeqFormats.EscapeHtmlPlain | static/js/sims/fasta-fastq-format-inspector.js:196-198 | text without `&`, `<` and `>` is unchanged |
| SeqFormats.EscapeHtmlSpec | static/js/sims/fasta-fastq-format-inspector.js:197 | the output contains no `<` or `>`, and its length is the input length plus 4 per `&` and 3 per `<` or `>` |
| SeqFormats.FastqTotals | static/js/sims/fasta-fastq-format-inspector.js:136-158 | the nested accumulation loops compute `RecordsTotals`: bases, Phred sum and quality count over the records in order |
| SeqFormats.TotalsOfJoined | static/js/sims/fasta-fastq-format-inspector.js:136-158 | the totals are the length of all sequences joined, the Phred sum of all quality strings joined, and exactly one count per quality character |
| SeqFormats.AverageQualitySpec | static/js/sims/fasta-fastq-format-inspector.js:177 | the average is shown as `-` iff there is no quality character; with printable quality characters it lies in `[0, 93]` |
| SeqFormats.AverageQualityExample | static/js/sims/fasta-fastq-format-inspector.js:155-158 | a record with quality `IIII` has average quality 40 (`I` is code 73, minus 33) |

## Left out

- Branch-length conversion: `parseFloat` and IEEE-754 behaviour are a parameter. Only the scan of which characters are consumed and the `|| 0` fallback are concrete.
- JavaScript indexing past a string's end: this gives `undefined`, which the models write out explicitly as `None`.
- TreePositions.AssignY: `assignY` writes `yPos` into the layout objects in place. The model builds a positioned copy of the parsed shape instead. `TreeLayout.StripLayout` proves the layout has exactly that shape, and the layout's `x`/`y` fields feed nothing in the drawing. Aliasing is not modelled.
- Drawing styles: stroke and fill styles, fonts, text alignment and the title text. They do not affect geometry.
- The leaf-dot colour `CLUSTER_COLORS[labels.indexOf(name) % 15]`. It is a colour choice and can index -1; the `labels` argument is therefore unused.
- The `numLeaves - 1 || 1` case of zero leaves: it cannot occur, because every tree has at least one leaf.
- The GPU animation loop, drawing and benchmark (`requestAnimationFrame`, timers, random sequences, pixel layout). They are I/O and time.
- GpuPatterns.Animate: requires `size >= 1`. The slider range keeps the size from 16 to 256, and `frame % 0` would be NaN.
- The wasm calls, which are foreign code: the aligner, `cigar_stats`, `parse_fasta`, `parse_fastq` and `gc_content_json`. Their results (aligned strings, records) are inputs. Score, identity, gaps and CIGAR display are left out with them.
- HTML strings, colours and `NT_COLORS` look-ups: presentation only. A rendered row is a list of residues with their shade.
- Alignment.UpperChar: `toUpperCase` is modelled for ASCII only. Non-ASCII mappings are left out. One example is the ligatures U+FB05 and U+FB06, which uppercase to "ST"; there the filter would keep a T.
- String indexing is modelled by code point. JavaScript strings are UTF-16: `charCodeAt(0)` is modelled exactly (the high surrogate for astral characters), but `.length` counts of astral characters are not.
- `renderFasta`'s totals and all GC statistics: `gc_content_json` is foreign code.
- Average length and every `toFixed`/`toLocaleString` number formatting.
- The `rec.name || rec.id` style field fallbacks: the record fields are given directly.
- SeqFormats.EscapeHtml: injectivity (decoding back) is not proved. The partner is the single-pass reference `EscapeEach`.
- Where the usual description of the format and the code differ, the code is followed. A name also stops at `;`. A length is any run of `0123456789.eE-+`, with no check for a single decimal point. An unclosed `(A,B` is accepted, with no rejection path.
- Only a `;` that is the very last character is stripped by `/;$/`, so `A; ` keeps its `;` (the name scan then stops there). This is modelled as written.
