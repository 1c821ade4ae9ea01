# Chord diagram patterns over protein backbones

This project models the core of `cdp`, a toolkit that describes the hydrogen
bonds of a protein backbone as a *chord diagram* and searches it for
patterns. The backbone is a line of atoms. Residue `r` owns the amide
nitrogen N at atom `3r`, the C-alpha at `3r+1` and the carbonyl O at `3r+2`.
An H-bond (`Hbond`) joins an N donor to an O acceptor. A tertiary interaction
(`Tbond`) joins two C-alphas.

The model covers four parts.

- **The backbone graph** (`Protein`): at most one bond per atom, inserted by
  a rule that rejects a bond on an occupied atom. Two loaders insert
  pre-parsed records in energy order (van der Waals order for T-bonds); the
  first bond to claim an atom wins.
- **The pattern language** (`CDP`): pattern texts such as
  `O: Hb(1); *; *; Hb(2);; N: Hb(1); *; *; Hb(2)`, their key/value
  properties, the printers, and a proof that printing a pattern and parsing
  the text back gives the same pattern.
- **The matcher** (`check_match`, `find_matches`). `check_match` propagates
  segment offsets through a stack. `find_matches` seeds segment 0 every
  third atom, filters out overlapping placements and can colour the
  matched bonds.
- **The local-pattern encoder** (`find_local_patterns.py`) and the
  occurrence filter (`filter_bonds.py` and its copy in
  `abacus/filtrflp.py`). The encoder labels the atoms around a bond, or in
  a window of residues, as text.

Code that mutates state is modelled as classes and methods over `map`/`seq`
fields and arrays. Each method is proved against a pure function or ghost
predicate, and the properties the source promises are proved about those.
Every Python exception the modelled code can raise becomes a `Failure`
result rather than a precondition. For example, `get_Hbond`'s assertion that
its atom is not a C-alpha is kept as a `Failure`, and the matcher is proved
correct with it in place. The one exception is calls the source never makes,
which preconditions exclude (see "Left out").

Files, one module each:

- `wrappers.dfy`, `text.dfy`: results and Python string helpers.
- `bonds.dfy`, `protein.dfy`, `sorting.dfy`: the backbone graph.
- `keyval.dfy`, `pattern.dfy`, `roundtrip.dfy`, `parsed_roundtrip.dfy`: the pattern language.
- `matcher.dfy`, `spans.dfy`, `colour.dfy`, `finder.dfy`: the matcher.
- `localconfig.dfy`, `residues.dfy`, `windows.dfy`, `scan_proofs.dfy`,
  `normalize.dfy`, `local_patterns.dfy`, `window_slots.dfy`,
  `window_proofs.dfy`, `patternwindow.dfy`: the local-pattern encoder.
- `filter_bonds.dfy`, `filtrflp.dfy`: the occurrence filter.

## Model

| member | source | states |
|---|---|---|
| Bonds.AtomOf | cdp.py:13-14 | the atom kind of index `idx` is N, C-alpha or O exactly when `idx % 3` is 0, 1 or 2 (`mod3_to_atom`) |
| Bonds.AtomMod3 | cdp.py:13-14 | `atom_to_mod3` gives a residue-relative position below 3 whose atom kind is the atom itself: the two tables are inverse |
| Bonds.DonorIndex | cdp.py:689 | the H-bond loader's donor column `3x` is the N atom of residue `x` |
| Bonds.AcceptorIndex | cdp.py:690 | the acceptor column `3x+2` is the O atom of residue `x` |
| Bonds.CalphaIndex | cdp.py:759 | the T-bond loader's column `3x+1` is the C-alpha of residue `x` |
| Bonds.LengthClass | cdp.py:505-508 | "L" exactly when the absolute length is at least 7, otherwise a text that parses back to the length |
| Bonds.Hbond.constructor | cdp.py:467-479 | the fields are the arguments, a missing residue string becomes "XXXX", the colour list starts empty |
| Bonds.Hbond.AddColor | cdp.py:481-482 | the colour is appended to the list and nothing else changes |
| Bonds.Hbond.NatureCluster | cdp.py:500-503 | the cluster label, or "?" when it is unknown |
| Bonds.Tbond.constructor | cdp.py:541-550 | the ends are stored in ascending order: `left <= right`, and `{left, right}` are the two arguments |
| Bonds.BondRef.OtherEnd | cdp.py:490-495 | defined exactly at the two ends of a bond (elsewhere the exception); the result is an end, and not the index itself for a non-loop |
| Bonds.OtherEndSwaps | cdp.py:490-495 | `other_end` swaps the two ends: applied to the result it gives back the original index |
| Bonds.InsertKeepsOneBond | cdp.py:637-676 | inserting a bond at two free, distinct indices keeps one bond per index, each index an end of its bond and its partner holding the same bond |
| Bonds.InsertHbondValid | cdp.py:637-657 | `add_Hbond`'s success path keeps the protein invariant: one bond per index, the index bounds, the bond lists listing exactly the attached bonds |
| Bonds.InsertTbondValid | cdp.py:659-676 | `add_tert`'s success path keeps the same invariant |
| Bonds.ReorderKeepsListed | cdp.py:748 | re-sorting the bond lists (any permutation) keeps them listing exactly the attached bonds |
| Proteins.NormalizeResidue | cdp.py:577-580 | "?" becomes "X", a letter in "@".."Z" is kept, anything else becomes "@"; the result always lies in "@".."Z" |
| Proteins.MergeResidueRules | cdp.py:576-591 | `add_residue`: a new index takes the letter; an unknown "@"/"X" is overwritten by anything but "@"; a letter that normalises to "@" never replaces a recorded one; a known letter is never replaced; no other entry changes |
| Proteins.MergeResidueIdempotent | cdp.py:576-591 | adding the same residue letter twice changes nothing the second time |
| Proteins.NormalizeSsclass | cdp.py:593-598 | "?" and "*" become "-", every other class is kept |
| Proteins.ReplaceQuestionMarks | cdp.py:725 | same length; each "?" becomes "X" and every other character stays |
| Proteins.SelectHRows | cdp.py:716-736 | the kept H-bond rows all match `__[US][US]$` and carry four residue letters; each comes from an accepted input row with "?" read as "X", and every accepted input row is kept in that cleaned form |
| Proteins.SelectHRowsAppend | cdp.py:716-736 | selection distributes over concatenation, so the kept H-bond rows stay in file order |
| Proteins.SelectHRowsOne | cdp.py:723-733 | one H-bond row is kept, cleaned of "?", exactly when its flags match and it has four residue letters |
| Proteins.SelectTRows | cdp.py:775-792 | the kept T-bond rows are exactly the input rows that match `^..__..$` and have `left <= right` |
| Proteins.SelectTRowsAppend | cdp.py:775-792 | selection distributes over concatenation, so the kept T-bond rows stay in file order |
| Proteins.SelectTRowsOne | cdp.py:780-786 | one T-bond row is kept exactly when `left <= right` and its flags match |
| Proteins.HOrderLetters | cdp.py:739 | every record the H-bond loader offers, after the energy sort, carries four residue letters |
| Proteins.TOrderOrdered | cdp.py:795 | every record the T-bond loader offers, after the VDW sort, names its residues in ascending order |
| Proteins.HEnds | cdp.py:689-690 | each H-bond record's ends are the donor N and acceptor O atoms of its residues |
| Proteins.TEnds | cdp.py:759 | each T-bond record's ends are the C-alphas of its two residues |
| Proteins.OccupiedIsKeptEnds | cdp.py:740-745 | after the first-wins insertion loop exactly the given atoms and the ends of the kept records are occupied |
| Proteins.DroppedCollides | cdp.py:740-745 | a dropped record is a loop, or hits an atom occupied beforehand or by an earlier kept record |
| Proteins.KeptDisjoint | cdp.py:740-745 | no two kept records share an atom |
| Proteins.Protein.constructor | cdp.py:566-574 | empty tables and lists, `minidx = 2**20`, `maxidx = -1`, and the invariant holds |
| Proteins.Protein.AddResidue | cdp.py:576-591 | the residue table becomes the merge of the old table with the letter (rules in `MergeResidueRules`) |
| Proteins.Protein.AddSsclassAnnotation | cdp.py:593-598 | the class table gains the normalised class at `idx` |
| Proteins.Protein.GetResidue | cdp.py:600-603 | the recorded letter, or "X" when the residue is unknown |
| Proteins.Protein.GetResidues | cdp.py:605-606 | `length` letters (none for a negative length), letter `k` being `GetResidue(start + k)` |
| Proteins.Protein.GetSsclass | cdp.py:608-611 | the recorded class, or "-" when unknown |
| Proteins.Protein.GetSsclasses | cdp.py:613-614 | `length` classes, class `k` being `GetSsclass(start + k)` |
| Proteins.Protein.AddHbondResidues | cdp.py:646-650 | the four letters are merged at the residues `(i-2)//3`, `(i+1)//3`, `(j-1)//3` and `(j+2)//3` |
| Proteins.Protein.AddHbond | cdp.py:637-657 | fails exactly when an end is occupied or `i == j`, and then changes nothing; otherwise the same new Hbond sits at `i` and `j`, is appended to the list, its residues are merged, the bounds widen to cover `i` and `j`, and the invariant is kept |
| Proteins.Protein.AddTert | cdp.py:659-676 | the same insertion rule plus the C-alpha assertions at both ends; on success the Tbond holds its ends in order |
| Proteins.Protein.GetHbond | cdp.py:810-816 | the assertion fails exactly at a C-alpha index; otherwise the bond at the index, or None when there is none |
| Proteins.Protein.GetTbond | cdp.py:818-824 | the assertion fails exactly off a C-alpha; otherwise the bond at the index, or None |
| Proteins.Protein.GetBond | cdp.py:827-831 | never fails: the bond at the index or None, and it agrees with `get_Hbond`/`get_Tbond` for the atom kind |
| Proteins.Protein.LoadHbonds | cdp.py:739-748 | the records, in stable energy order, are offered first-wins: exactly the given and kept ends are occupied, nothing given moves, each kept record is stored with its fields and residues; `minidx`/`maxidx` become exactly the running minimum/maximum over the kept records' ends (`KeptMin`, `KeptMax`); the list ends sorted by line number |
| Proteins.Protein.InsertHbonds | cdp.py:740-745 | the insertion loop, offering the records in order through `add_Hbond` and swallowing rejections; `minidx`/`maxidx` end as `min`/`max` over the old bound and the ends of exactly the records kept |
| Proteins.Protein.LoadTbonds | cdp.py:795-806 | the same for T-bonds in stable VDW order, with exact `minidx`/`maxidx` over the kept ends, the list ending sorted by line number |
| Proteins.Protein.InsertTbonds | cdp.py:796-803 | the T-bond insertion loop through `add_tert`, with exact `minidx`/`maxidx` over the kept ends |
| Sorting.SortByKey | cdp.py:739 | the sort by an integer key is a permutation whose keys never decrease (`list.sort(key=...)` abstracted to an integer key) |
| Sorting.SortStable | cdp.py:739 | the sort is stable: for every key, the elements with that key come out in the order they went in |
| Proteins.KeptBounds | cdp.py:655-656 | the running `min(i,j,minidx)`/`max(i,j,maxidx)` over the kept records is at most/at least the starting bound and every kept end, and is the starting bound or an actual kept end (the same at lines 674-675) |
| KeyVal.ParseKeyval | cdp.py:29-66 | the loop that consumes the text returns exactly what `Parse` describes |
| KeyVal.SeparatorsSkipped | cdp.py:34-36 | leading blanks and commas before an item are skipped |
| KeyVal.UnparsableRefused | cdp.py:64 | after the separators, a text that does not start with a key character raises |
| KeyVal.ParseInItem | cdp.py:38-44 | `k in {a, b}` maps `k` to the set of the stripped pieces and parsing goes on after the brace |
| KeyVal.ParseEqItem | cdp.py:46-52 | `k = v` maps `k` to `v` stripped, up to the next comma |
| KeyVal.ParseBareItem | cdp.py:54-62 | a bare key becomes `label` the first time and a True flag afterwards |
| KeyVal.AddBare | cdp.py:57-60 | the first bare key is stored under "label", a later one as a flag |
| KeyVal.ParseEnd | cdp.py:32-36 | a remainder of only separators ends the parse with the dictionary built so far |
| KeyVal.ItemSetOfJoin | cdp.py:149 | printing distinct items as `", ".join(...)` and parsing them back as a set gives the same items |
| KeyVal.Distinct | cdp.py:41 | the members of a set display have the same elements as the list |
| KeyVal.Span | cdp.py:34-54 | the longest prefix in a character class (the regexes' `[...]+`): all of its characters are in the class, and the next one is not |
| Patterns.SetEndpointOnce | cdp.py:78-96 | an end can be set only by an N or O vertex, and setting the same end a second time raises |
| Patterns.SetEndpointFrames | cdp.py:78-96 | an N vertex becomes the donor, an O vertex the acceptor; the other end and the properties stay |
| Patterns.SetSO3class | cdp.py:98-104 | a string gives the one-element class set, a set is taken as it is, True raises |
| Patterns.SignedLen | cdp.py:116-122 | the length of the prefix matching `-?[0-9]+`; when non-zero, that prefix parses as an integer |
| Patterns.Steps | cdp.py:118-124 | `range(lo, hi+1, s)`: empty exactly when `lo > hi`; otherwise it starts at `lo`, steps by `s`, stays within `[lo, hi]` and ends within `s` of `hi` |
| Patterns.StepsOne | cdp.py:118 | with step 1 the range holds every integer from `lo` to `hi` |
| Patterns.Merge | cdp.py:130 | the union of two integer sets: an increasing list holding exactly the members of either |
| Patterns.ScalarToIntSet | cdp.py:112-124 | a parsed scalar gives an increasing set (`n`, `a...b`, `a..s..b` forms; see `ScalarOfInt`, `Steps`) |
| Patterns.DistUnion | cdp.py:125-130 | the union over a collection of scalars is increasing; an unparsable member is a TypeError |
| Patterns.OtherEnd | cdp.py:158-163 | for a fully specified bond, the opposite end of either end, distinct from it |
| Patterns.ParsedSpecified | cdp.py:338-340 | every H-bond of a successfully parsed pattern has both ends |
| Patterns.LetterOfAtom | cdp.py:13-14 | the letter printed for an atom kind reads back as that atom kind |
| Patterns.IntStrings | cdp.py:154 | `[str(x) for x in ...]`, item by item |
| Patterns.VertexStrings | cdp.py:253-262 | the printed vertices: it succeeds exactly when every vertex prints, one text per vertex |
| Patterns.SegmentStrings | cdp.py:289-292 | the printed segments: it succeeds exactly when every segment prints, one text per segment |
| PatternRoundTrip.PrintParse | cdp.py:346-353 | a printable pattern prints, on one line or on several, and `CDP(name, p.as_string(oneline), p.strict)` gives back the same segments, vertices, chord labels, ends and properties |
| ParsedRoundTrip.ParseItemsGood | cdp.py:29-66 | every set that `parse_keyval` builds lists at least one member and none twice |
| ParsedRoundTrip.SetPropertiesOk | cdp.py:135-140 | `set_properties` leaves both ends alone and gives a non-empty list of distinct SO3 classes and increasing distances |
| ParsedRoundTrip.VertexInv | cdp.py:207-245 | reading one vertex keeps the invariant: every set end of a bond is a chord of that bond at an N (donor) or O (acceptor) vertex read so far, and every vertex read is `*`, `i` or a chord at an end of its bond |
| ParsedRoundTrip.SegmentsInv | cdp.py:335-336 | reading all segments keeps that invariant |
| ParsedRoundTrip.ParsedPrintable | cdp.py:299-340 | a pattern the constructor returns is printable exactly when its labels are words, its distance sets are non-empty and its SO3 classes are set items |
| ParsedRoundTrip.ParsedReprints | cdp.py:346-353 | such a parsed pattern prints, on one line or on several, and reads back as itself |
| ParsedRoundTrip.EmptyRange | cdp.py:116-118 | `scalar_to_intset("a...b")` with `b < a` is the empty set |
| ParsedRoundTrip.EmptySetText | cdp.py:153-154 | an empty distance set prints as `dist in {}` |
| ParsedRoundTrip.EmptySetParse | cdp.py:29-66 | `parse_keyval` reads `dist in {}` as the set holding the empty string |
| ParsedRoundTrip.EmptyPieceRefused | cdp.py:128-130 | setting the distances from that set is the TypeError of `\|=` with None |
| ParsedRoundTrip.EmptyDistUnreadable | cdp.py:153-154 | as written: the parser accepts `5...3`, the empty set prints as `dist in {}`, and that text raises on reading |
| ParsedRoundTrip.DistIntendedReadsBack | cdp.py:145-156 | with the empty set printed as `dist = 1...0`, every increasing set of distances, the empty one included, reads back as itself |
| PatternRoundTrip.ParsePrinted | cdp.py:299-340 | a text whose segment specifications are the printed segments parses back as the pattern |
| PatternRoundTrip.PrintSegments | cdp.py:289-292 | every segment of a printable pattern prints as a line the segment splitter keeps whole |
| PatternRoundTrip.AllSpecified | cdp.py:338-340 | a printable pattern passes the specified check with every label |
| PatternRoundTrip.ScalarOfInt | cdp.py:119-121 | `scalar_to_intset(str(n))` is `{n}` |
| PatternRoundTrip.DistOfIntStrings | cdp.py:129-130 | the union of the printed members of an increasing distance set is the set |
| PatternRoundTrip.ParsePropertiesText | cdp.py:145-156 | the printed properties (`SO3class in {...}`, `dist = n` or `dist in {...}`) parse back to a dictionary with those values |
| PatternRoundTrip.ParseProperties | cdp.py:145-156 | the donor's `label, properties` text parses to the label and the properties |
| PatternRoundTrip.ParseDonorText | cdp.py:224-243 | reading the donor's `Hb(...)` gives the chord and records the donor and the properties |
| PatternRoundTrip.ParseAcceptorText | cdp.py:224-243 | reading the acceptor's `Hb(label)` gives the chord and records the acceptor |
| PatternRoundTrip.ParseVertexStep | cdp.py:207-262 | reading a printed vertex gives the vertex back and advances the parser's bond table to the next vertex |
| PatternRoundTrip.ParseSegmentStep | cdp.py:264-292 | reading a printed segment gives the segment back and advances the bond table to the next segment |
| PatternRoundTrip.ReadPrintedSegments | cdp.py:335-336 | the printed segments read back, in order, as the pattern's segments, building the whole bond table |
| PatternRoundTrip.ReplaceSemisJoinOneline | cdp.py:352 | replacing ";;" in a `;; `-joined text gives the lines joined by a newline and a blank |
| PatternRoundTrip.LinesOneline | cdp.py:331 | splitting the one-line form back into lines gives the printed lines, stripped |
| PatternRoundTrip.LinesMultiline | cdp.py:331 | splitting the newline-joined form gives the printed lines, stripped |
| PatternRoundTrip.SegmentSpecsOfJoin | cdp.py:331 | the constructor's segment specifications of a printed pattern are the stripped segment texts |
| Matcher.CheckMatch | cdp.py:400-462 | sound: on True every placed segment passes every vertex test (isolated vertices unbonded, `+`/`-` directions, each chord's partner holding the very same bond); complete: every full placement extending the given offsets that maps every vertex, ordered in strict mode, makes it return True and agrees with the offsets it fixes |
| Matcher.CheckVertex | cdp.py:407-459 | one vertex test: True only when the vertex holds; any solution forces True; offsets only grow, strict order is kept, newly placed segments are pushed |
| Matcher.CheckChord | cdp.py:438-459 | the chord case: the partner's segment is placed at the other end of the bond after the strict neighbour bounds, or must already hold the identical bond |
| Matcher.RefuteLocal | cdp.py:411-434 | a vertex that fails its local test rules out every solution |
| Matcher.RefuteNeighbour | cdp.py:449-453 | strict mode: an offset not strictly between its placed neighbours rules out every solution |
| Matcher.RefuteOtherBond | cdp.py:457-459 | a placed partner not holding the identical bond rules out every solution |
| Matcher.PlaceAgrees | cdp.py:454 | placing the partner's segment at `other_end - m` agrees with every solution |
| Matcher.SeedAtom | cdp.py:364 | every seed `(minidx//3)*3 + mod3 + 3k` has the atom kind of segment 0's first vertex and lies in `[minidx-2, maxidx)` |
| Matcher.SpansPassDisjoint | cdp.py:370-373 | a placement passing the overlap test has pairwise disjoint spans; in non-strict mode the test accepts exactly those |
| Matcher.Collect | cdp.py:370 | the offsets as integers; a segment left unplaced is the TypeError of `None + int` |
| Matcher.OnlySolution | cdp.py:365-368 | from one seed, a full placement that every solution extends is the only solution |
| Matcher.MatchAt | cdp.py:365-373 | one seed: a report is a full placement from the seed that matches (and is ordered in strict mode) and passes the overlap test; any such solution is reported, unless the seed raises (an unplaced segment makes the offsets list a TypeError, cdp.py:370) |
| Matcher.AppendReport | cdp.py:364-374 | a report from a later seed keeps the list valid and in seed order |
| Matcher.SeedsDone | cdp.py:364 | after the last seed, the reports cover every seed below `maxidx` |
| Spans.Sort | cdp.py:372 | `r.sort()` on spans: a permutation whose neighbours are in tuple order |
| Spans.SortSeparated | cdp.py:372 | sorting neither creates nor removes an overlap |
| Spans.ConsecutiveDisjoint | cdp.py:373 | spans passing the neighbour test are pairwise disjoint |
| Spans.SortedTestIsDisjointness | cdp.py:371-373 | sorting and then testing neighbours accepts exactly the pairwise disjoint spans |
| Spans.SeparatedIsPairwise | cdp.py:373 | "each span disjoint from all later ones" is pairwise disjointness |
| Colouring.Paints | cdp.py:376-386 | the `add_color` calls for the labels in order succeed exactly when each one does, one call per label |
| Colouring.PaintOnChord | cdp.py:382-386 | the colour is `name:label`, given to the very H-bond found at both ends of the matched chord; it fails on a Tbond or a non-string label |
| Colouring.PaintedListed | cdp.py:386 | a coloured bond is one of the protein's listed H-bonds |
| Colouring.ColoursFor | cdp.py:386 | a bond's colours come from calls naming that bond |
| Colouring.ColoursForAppend | cdp.py:386 | the colours of two runs of calls are those of the first run then those of the second |
| Colouring.ColourOne | cdp.py:382-386 | one `get_Hbond(idx).add_color(...)` call: fails exactly as its specification does; only the named bond gains the colour |
| Colouring.ColourNext | cdp.py:376-386 | one turn of the colouring loop keeps the expected calls and the colours in step |
| Colouring.ColourMatch | cdp.py:375-386 | on success every label is coloured once, in the dictionary's order, by its specified call; on an exception the calls before the failing label were made; each bond gains exactly the colours of the calls naming it |
| Colouring.MatchColours | cdp.py:364-386 | colouring one more match appends that match's colours |
| Finder.FindMatches | cdp.py:355-386 | no segments, no reports; every report is a full matching placement from a seed in `range((minidx//3)*3+mod3, maxidx, 3)` passing the overlap test; reports are in seed order; every solution passing the test is reported, unless a seed raises first (as in `MatchAt`); with `color_bonds` each report is coloured and each bond gains exactly those colours |
| Finder.SeedLoop | cdp.py:364-386 | the seed loop keeps the reports valid and covering the earlier seeds |
| Finder.NextSeed | cdp.py:365-386 | one seed's iteration keeps the loop invariant |
| Finder.ReportAt | cdp.py:365-386 | one seed: its outcome, coloured when asked |
| Finder.ColourReport | cdp.py:375-386 | the colouring of one report leaves the report and the protein as they were |
| LocalConfig.LettersDistinct | find_local_patterns.py:224-225 | different draws of the two letter generators give different letters |
| LocalConfig.MirrorLower | find_local_patterns.py:179 | the mirror `chr(ord("z") - (ord(c) - ord("a")))` maps lower-case to lower-case, undoes itself and sends a to z |
| Residues.CreateResidueScheme | find_local_patterns.py:52-57 | the nested loops build exactly the scheme as the groups define it |
| Residues.SchemeOfLastGroup | find_local_patterns.py:52-57 | a scheme maps exactly the grouped letters, each to the first member of the last group holding it |
| Residues.GroupFirst | find_local_patterns.py:52-57 | with disjoint groups each letter maps to the first member of its own group |
| Residues.SchemesDisjoint | find_local_patterns.py:65-71 | the groups of each of the five schemes are disjoint |
| Residues.SchemeAt | find_local_patterns.py:74 | `residue_schemes[k]` exists exactly for `-5 <= k < 5` |
| Residues.Translate | find_local_patterns.py:75 | succeeds exactly when every letter has an entry (otherwise KeyError), preserving length and mapping letter by letter |
| Residues.SimplifyResidues | find_local_patterns.py:73-75 | the residue string under the configured scheme; an out-of-range scheme index is an IndexError |
| Residues.SchemeZeroAllX | find_local_patterns.py:66 | scheme 0 turns any string over its 21 letters into a run of X of the same length |
| Residues.SimplifyByGroup | find_local_patterns.py:67-75 | under any scheme, letters of one group all become that group's first letter, keeping the length |
| LocalSlots.Windows | find_local_patterns.py:248-303 | one window `[left-w, right+w]`, or two windows centred on the ends with a gap between them (`segLR + 1 < segRL`) |
| LocalSlots.WindowSizes | find_local_patterns.py:248-303 | one window exactly when `right - left <= 2w+1`, of length `right-left+2w+1`; otherwise two windows of length `2w+1`, the left holding `left` and the right `right` |
| LocalSlots.SetSlot | find_local_patterns.py:258-259 | writing the slot of atom `x` changes that slot and no other |
| LocalSlots.FocalBond | find_local_patterns.py:227-240 | the central bond sits at exactly its two focal atoms |
| LocalSlots.ScanFresh | find_local_patterns.py:326-366 | with one bond per index, an atom about to be labelled is not focal and its far end, when inside the windows, lies after it with an empty slot: the `is None` assertions hold and the right window's "bond back into the left window" branch is never reached |
| LocalSlots.EndSlot | find_local_patterns.py:286-289 | after the scans, filling the empty slots (here and at lines 373-379) gives each atom its final slot, and every bonded atom was described |
| LocalSlots.EndLabels | find_local_patterns.py:322-362 | the bond letters handed out are distinct draws, none the central letter |
| LocalScanProofs.StepKeeps | find_local_patterns.py:262-284 | one scan step keeps the scan invariant, or stops with StopIteration |
| LocalScanProofs.ScanKeeps | find_local_patterns.py:262-371 | a whole scan loop keeps the invariant, or stops with StopIteration |
| LocalScanProofs.FirstScan | find_local_patterns.py:262-338 | the first loop, from the lists holding the central string |
| LocalScanProofs.SecondScan | find_local_patterns.py:341-371 | the right window's loop after the first one |
| LocalScanProofs.LocalScanLabelled | find_local_patterns.py:232-379 | for one of the protein's bonds the scans raise only StopIteration. Otherwise: both focal slots hold the central letter (`a`/`A`, plus `~` if twisted); each other bond inside the windows has one fresh letter at both ends; a bond leaving them is `R+`/`R-`; every other slot is I/X/I by index mod 3 |
| LocalPatterns.Put | find_local_patterns.py:258-259 | writing into the array of the window holding the atom is `SetSlot` |
| LocalPatterns.ScanAt | find_local_patterns.py:263-284 | the loop body on the arrays does what `Step` describes |
| LocalPatterns.ScanWindow | find_local_patterns.py:262-371 | a scan loop on the arrays does what `Scan` describes |
| LocalPatterns.FillIsolated | find_local_patterns.py:287-289 | every empty slot gets its atom's isolated letter |
| LocalPatterns.NewWindows | find_local_patterns.py:253-306 | fresh lists of None, holding the central string at both focal atoms |
| LocalPatterns.DescribeLocalPattern | find_local_patterns.py:223-381 | the whole encoder on arrays gives `LocalPattern`: scans, isolated fill, then `normalized_toptype` |
| Normalize.FocalFrom | find_local_patterns.py:127 | `apos`: exactly the positions whose slot starts with the central letter, ascending |
| Normalize.FocalCheck | find_local_patterns.py:127-128 | the positions list, checked to hold one or two positions (also lines 162-163) |
| Normalize.NearFocal | find_local_patterns.py:135-140 | the inner loop sets `nearby` exactly when some focal slot is within the distance (excluding the slot itself for remotes, including it for twists; also lines 171-176) |
| Normalize.HandleNearbyRemotes | find_local_patterns.py:119-144 | on the array: nothing for a missing list; otherwise the checks, then the remote pass as `Remotes` describes, the array unchanged on failure |
| Normalize.RemotesExact | find_local_patterns.py:130-142 | a slot changes exactly when it is a remote bond farther than `nearby_remotes` from every focal slot, and it becomes its atom's isolated letter |
| Normalize.NoRemotesAtZero | find_local_patterns.py:130-142 | with `nearby_remotes <= 0` no remote bond survives |
| Normalize.Untwisted | find_local_patterns.py:177 | `replace("~", "")` leaves no `~` and changes nothing else |
| Normalize.TwistsFrom | find_local_patterns.py:165-181 | the slots after the twist loop, succeeding exactly when each slot's step does |
| Normalize.TwistsFromFails | find_local_patterns.py:165-181 | the twist loop stops with the error of the first failing slot |
| Normalize.HandleNearbyTwists | find_local_patterns.py:146-183 | on the array: nothing for a missing list; otherwise the twist pass as `Twists` describes |
| Normalize.NoTwistsLeft | find_local_patterns.py:165-181 | after the twist pass no slot holds `~` |
| Normalize.TwistedSlot | find_local_patterns.py:172-181 | a twisted slot within `nearby_twists` (inclusive) of a focal slot has its letter mirrored; a farther one only loses the mark |
| Normalize.NoMirrorWhenNegative | find_local_patterns.py:172-181 | with `nearby_twists < 0` nothing is mirrored and the pass only drops the marks |
| Normalize.StripSigns | find_local_patterns.py:211 | `re.sub("[-+]", "", t)` removes every sign and keeps every other character |
| Normalize.SubRemoteRemoves | find_local_patterns.py:216 | after the substitution no `R` is left |
| Normalize.SubRemoteIdle | find_local_patterns.py:217-218 | a text without `R` is unchanged, so the substitutions at lines 217-218 never change anything |
| Normalize.FinishFacts | find_local_patterns.py:210-218 | with `remote_sign` off there is no sign; when a competing local letter b..k is found, every `R[-+]?` becomes I; otherwise the text is kept |
| Normalize.SharedLetterSides | find_local_patterns.py:215 | on two windows joined by one colon, the backreference regex matches exactly when one letter b..k occurs on both sides |
| Normalize.NormalizedTopType | find_local_patterns.py:199-220 | the passes on the arrays in source order give `str(window_size)` followed by the left slots and, with two windows, ":" and the right slots, finished; on success each array holds exactly the remote pass and then the twist pass applied to its old contents (`Passes`) |
| WindowSlots.Blank | find_local_patterns.py:400 | `[None] * size`: every slot empty, no letter drawn |
| WindowSlots.WinStep | find_local_patterns.py:402-420 | one iteration of the window loop keeps the slot count |
| WindowProofs.WinStepKeeps | find_local_patterns.py:401-420 | one iteration keeps the window invariant, failing only with StopIteration |
| WindowProofs.WindowLabelled | find_local_patterns.py:399-420 | the window loop fails only with StopIteration (27 bonds inside); otherwise every slot is written and settled. A C-alpha is X (unless bonded inside the window to an N or O atom, which no loader creates), an unbonded atom its isolated letter, a bond leaving the window `R+`/`R-`, and a letter marks exactly the two ends of one bond inside the window |
| PatternWindow.CleanupAsWrittenKeepsRemote | find_local_patterns.py:390 | as written, the remote slot of "R+XI" survives: the result is "RXI" |
| PatternWindow.CleanupAsWrittenRenamesLetter | find_local_patterns.py:390 | as written, the eighteenth bond letter "r" is turned into the ninth, "i" |
| PatternWindow.SubLowerRKeeps | find_local_patterns.py:390 | `re.sub("r[-+]?", "i", t)` keeps every character other than r, i and the signs: present after exactly when present before |
| PatternWindow.CleanupAsWrittenKeepsR | find_local_patterns.py:386-391 | as written, every R of the text survives the clean-up, whatever the settings |
| PatternWindow.CleanupFacts | find_local_patterns.py:386-391 | the clean-up as intended: no sign when `remote_sign` is off; no R unless remotes are always kept; bond letters exactly those of the input; identity when both flags are set |
| PatternWindow.FillSlot | find_local_patterns.py:401-420 | the loop body on the array does what `WinStep` describes |
| PatternWindow.JoinWindow | find_local_patterns.py:397-421 | the slot loop on a fresh array of `3*length` slots, joined, gives `WindowJoined`: the slots `WinScan` computes, or its StopIteration |
| PatternWindow.DescribePatternWindow | find_local_patterns.py:393-424 | as written: the assertion, the slot loop and `cleanup_window_pattern` as the source has it (`PatternWindowText`) |
| PatternWindow.DescribeIntendedWindow | find_local_patterns.py:393-424 | the same with the clean-up as intended (`IntendedWindowText`) |
| PatternWindow.JoinedFacts | find_local_patterns.py:397-421 | the joined slots fail only with StopIteration, and hold an R whenever a non-C-alpha atom of the window has a bond leaving the window |
| PatternWindow.PatternWindowOutcomes | find_local_patterns.py:393-424 | as written: AssertionError exactly when `length <= 2*trim`, otherwise only StopIteration; no sign when `remote_sign` is off; an R in the text whenever a bond leaves the window, whatever the settings |
| PatternWindow.IntendedWindowOutcomes | find_local_patterns.py:393-424 | as intended: the same failures; no R unless remotes are always kept; no sign when `remote_sign` is off |
| PatternWindow.PatternWindowLength | find_local_patterns.py:393-424 | with `remote_sign` off a window text has exactly `3*length` characters, one per atom (none for a non-positive length), both as written and as intended |
| FilterBonds.BondKeyOfColumns | filter_bonds.py:38-41 | a line of tab-separated columns has the key `cols[6].strip() + "_" + cols[7].strip()`, and none below eight columns |
| FilterBonds.Filter | filter_bonds.py:33-52 | fails (IndexError) exactly when some line has fewer than eight columns; otherwise the lines, in order, whose key occurs at least `minimum` times in the whole input |
| FilterBonds.CountKeys | filter_bonds.py:35-42 | the first pass counts every key exactly, or fails on a short line |
| FilterBonds.KeepFrequent | filter_bonds.py:45-52 | the second pass keeps exactly the selected lines, in order |
| FilterBonds.SelectedMembers | filter_bonds.py:51 | a line is kept exactly when it is in the input and its key is frequent enough |
| FilterBonds.KeptTogether | filter_bonds.py:35-52 | lines sharing a key are kept or dropped together |
| FilterBonds.KeepAllBelowTwo | filter_bonds.py:42-51 | with `minimum <= 1` every line is kept |
| FilterBonds.CountSelected | filter_bonds.py:51 | the output holds all lines of a frequent key and none of a rare one |
| FilterBonds.FilterIdempotent | filter_bonds.py:33-52 | filtering the output again with the same minimum succeeds and changes nothing |
| FiltrFlp.Filter | abacus/filtrflp.py:21-40 | the verbatim copy of the filter, with the same specification |
| FiltrFlp.CutoffWithoutDash | abacus/filtrflp.py:44-46 | a job name without '-' gives the cutoff 4 |
| FiltrFlp.CutoffOfLastPart | abacus/filtrflp.py:44-51 | a job name `prefix-last` gives `int(last)`, or 4 when `last` does not parse (the swallowed ValueError) |
| FiltrFlp.CutoffOfSuffix | abacus/filtrflp.py:46-48 | appending `-n` to a job name selects the cutoff `n` |
| Text.PythonIntOfNat | abacus/filtrflp.py:48 | `int(str(n))` is `n` |

## Left out

- File reading and column parsing in `from_file`, `add_tertiary_interactions`, `add_residue_information` and `add_ssclass_information` (cdp.py:617-634, 713-737, 772-793) are not modelled. The loaders take already-parsed records (`HRow`, `TRow`), and the flag regexes act on the parsed field.
- Floating point is not modelled. The energy and VDW sort keys are integers. `is_twisted`'s `so3matrix[2][2] < 0.0` (cdp.py:538) is a given boolean. The C-alpha/C-beta distance thresholds (cdp.py:791) are not modelled; the records are taken as already filtered.
- `Hbond.ident` and `get_donoridx`/`get_accptridx` (cdp.py:475, 484-488) are not modelled. Nothing in the core reads them.
- Output is not modelled: the `print` of each match (cdp.py:374), the unreachable `print` at cdp.py:436 and 359, and the stderr report of a residue conflict (cdp.py:591). A conflict leaves the table unchanged, as `MergeResidueRules` states.
- The `CDP_Vertex` singleton cache (cdp.py:173-205) is not modelled. `*` and `i` are plain values. A vertex is identified by its position (segment, index), and an H-bond constraint by its label.
- Python dictionary and set iteration order is left open. `find_matches` colours the constraints in an order the model leaves open (a ghost `order`). The `SO3class` set is a list in written order, and `dist` an increasing list (its only observable order is `sorted`).
- The `+`/`-` vertex kinds are handled by `check_match` (cdp.py:423-434), but the parser never produces them, so the round trip covers `*`, `i` and chords only.
- `SO3class` and `dist` are stored and printed but never read by the matcher, so no filtering on them is modelled.
- `read_whitelist_files` and the command-line driver of find_local_patterns.py (lines 187-197, 429-583) are file and CLI code and are not modelled. Neither is the argparse driver of filter_bonds.py (lines 55-66).
- In abacus/filtrflp.py the job name is a parameter, because reading `$SLURM_JOB_NAME` is environment access (line 45). The per-step directory loop (lines 53-65) is not modelled.
- The filter reads the file as a sequence of lines; opening and writing files are not modelled.
- Regular expressions are written as explicit string functions, one per regex the core uses.
- `str.splitlines` is modelled with the line breaks `\n`, `\r` and `\r\n` only.
- Proteins.Protein.AddHbond: requires a residue string of at least four letters when one is given, as its only caller `from_file` always supplies. A shorter string would raise an IndexError after the insertion checks; that case is not modelled.
- Matcher.CheckMatch: requires the state in which `find_matches` calls it. That is the protein invariant (one bond per index), every stacked segment placed, every placed segment off the stack already passing its tests, and, in strict mode, ordered offsets.
- Normalize.NoTwistsLeft: assumes no twisted slot starts with `~` or with `]` (whose mirror is `~`). Slots the encoder builds always start with a letter.
- Upper-case T-bond letters can become I, R or X after 8 or more allocations, and the normalisation passes then misread them. The model computes this exactly as the source does, but no property about it is proved.
- PatternRoundTrip.PrintParse: is proved for printable patterns only. `ParsedRoundTrip.ParsedPrintable` shows that a parsed pattern is printable exactly when its labels are words, its distance sets are non-empty and its SO3 classes are set items. The round trip is not claimed for the rest: an empty range such as `dist = 5...3` prints as `dist in {}`, which raises on reading (Findings); a label with a blank (`label = x y`) does not read back as itself; a True label (`Hb(x, label)`) prints as `Hb(True)` and reads back as the str "True"; an SO3 class given with `=` that holds a brace does not read back either.
- Text.PythonInt: accepts only ASCII digits with an optional sign and surrounding whitespace. It does not accept the `_` digit separators or the non-ASCII decimal digits that Python 3's `int()` also takes.
- `describe_pattern_window`'s `trim` only enters through its assertion; the commented-out trimming (find_local_patterns.py:422) is not modelled.

## Findings

| source | as written | input that shows it | evidently intended | confidence | as-written member | corrected member |
|---|---|---|---|---|---|---|
| find_local_patterns.py:390 | `cleanup_window_pattern` replaces the lower-case `r[-+]?` by `i`, but `describe_pattern_window` writes remote bonds with the upper-case `R` (line 420). So remote slots survive the clean-up, and the bond letter `r` is renamed to `i`. | the window text "R+XI" (one N with a remote bond) with the default settings gives "RXI"; "rXr" gives "iXi" | remote slots become the isolated letter `I`, as in `normalized_toptype` (line 216) | high; not executed | PatternWindow.DescribePatternWindow, PatternWindow.PatternWindowOutcomes, PatternWindow.CleanupAsWrittenKeepsR, PatternWindow.CleanupAsWrittenKeepsRemote, PatternWindow.CleanupAsWrittenRenamesLetter | PatternWindow.DescribeIntendedWindow, PatternWindow.IntendedWindowOutcomes, PatternWindow.CleanupFacts |
| cdp.py:153-154 | `CDP_Hbond.as_string` prints a distance set of any size other than one as `dist in {...}`. The parser accepts an empty range (`5...3`, lines 116-118), and the empty set then prints as `dist in {}`. `parse_keyval` reads that as the set holding "" (line 41), and `self.dist \|= scalar_to_intset("")` is `\|=` with None, a TypeError (line 130). So `as_string` can produce a text that the constructor refuses. | `CDP("p", "N: Hb(1, dist = 5...3); *; Hb(1)")` prints its bond as `Hb(1, dist in {})` | the empty set prints as a text that reads back as the empty set, such as the empty range `dist = 1...0` | medium; not executed | ParsedRoundTrip.EmptyDistUnreadable, ParsedRoundTrip.EmptyRange, ParsedRoundTrip.EmptySetParse, ParsedRoundTrip.EmptyPieceRefused | ParsedRoundTrip.DistIntendedReadsBack |
