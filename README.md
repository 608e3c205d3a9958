# Undivided interest calculator — a Dafny model

The undivided interest calculator is a chain-of-title tool for real property.
It keeps a collection of ownership nodes. Each node lists the transfers it
received, and each transfer says that some percent of a grantor node's interest
passed to it. A node's interest in the whole property, what it has conveyed
away, and what it still holds all follow from those transfer lists.

This project models the following:

- **`OwnerCalculations`**: the interest calculator. It covers a node's total
  interest and its cycle guard, direct grantees, the percent allocated out and
  remaining, the leaf owners, and the legacy display tier.
- **`AutoLayout`**: the tier layout. It covers the memoised tier of a node,
  grouping by tier, and the closed-form slot positions for both directions.
- **`Formatters`**, the text utilities:
  - percentage parsing (fraction, decimal and percent forms);
  - Euclid's gcd;
  - the reduced fraction printer with its 10⁶ denominator;
  - the date mask, title case and document label;
  - the person colour.
- **`FlowChart`**: the chart component's state machine. It holds the persons,
  documents, nodes and saved positions, and the handlers that change them:
  delete node, delete document, add grantee, add source transfer, edit node and
  add standalone node. It also covers the values derived for display:
  per-person totals, a document's grantees, current ownership and the transfer
  breakdown.
- **`EditOwner`**: the node edit form. It covers loading a node into the form,
  the per-transfer edits, deleting a transfer, and the submit check that cleans
  the transfers.
- **`PersonManager`**: the person registry. It covers starting an edit, saving
  (title-cased name and parsed aliases), cancelling, and the per-person node
  count.

Support modules:

- `Text`: whitespace, trimming, splitting and joining, digit rendering, and a
  restricted `parseFloat`.
- `Seqs`: filter and subsequence.
- `Ownership`: the records.

Some operations change state step by step: `calculateTotalPercentage`'s loop,
`gcd`'s loop, `formatFraction`, `getDocumentLabel`, the layout loops, the
component handlers and the form fields. Each is a `method`, or a `class` with
`modifies` clauses, proved against a specification function. The properties
the source promises are then lemmas about those functions.

Percentages are `real`. `Math.round` is the nearest integer, with halves
rounded up. `generateId` is a fresh-id oracle: every handler that creates a
record takes the id it would draw as a parameter. An `alert` is an `Alerted`
outcome or a `Refused`/`Invalid` result.

## Model

| member | source | states |
|---|---|---|
| OwnerCalculations.TotalInterest | src/hooks/useOwnerCalculations.js:7-21 | total interest of an unknown id is 0, of a node without transfers 100 |
| OwnerCalculations.CalculateTotalPercentage | src/hooks/useOwnerCalculations.js:7-21 | the loop with its per-branch visited copy computes exactly the guarded recursion TotalFrom |
| OwnerCalculations.TotalFromUnfolds | src/hooks/useOwnerCalculations.js:15-20 | a found node's total is the sum, over its transfers, of the shares with the node added to the visited path |
| OwnerCalculations.SharesFromStep | src/hooks/useOwnerCalculations.js:17-19 | each loop step adds percentage/100 of the grantor's total, in transfer order |
| OwnerCalculations.VisitShrinks | src/hooks/useOwnerCalculations.js:8-9 | adding an unvisited id shrinks the set of unvisited ids, so the guarded recursion terminates on every input |
| OwnerCalculations.TotalIgnoresVisited | src/hooks/useOwnerCalculations.js:7-21 | without a cycle from the node, the visited set does not change the result |
| OwnerCalculations.SharesWithoutGuard | src/hooks/useOwnerCalculations.js:15-20 | on acyclic input the guarded transfer sum equals the unguarded sum SumShares |
| OwnerCalculations.TotalRecurrence | src/hooks/useOwnerCalculations.js:15-20 | on acyclic input a node's total is the unguarded sum of shares of its grantors' totals |
| OwnerCalculations.SharesFromOneGrantor | src/hooks/useOwnerCalculations.js:15-20 | when every transfer comes from one grantor, the sum of shares is (sum of percentages)/100 of the grantor's total |
| OwnerCalculations.ChildTotal | src/hooks/useOwnerCalculations.js:7-35 | a node that receives only from the id holds FromThisOwner(child, id)/100 of the id's total |
| OwnerCalculations.ChildrenTotals | src/hooks/useOwnerCalculations.js:7-35 | the totals of such nodes add up to (the sum of what each received from the id)/100 of the id's total |
| OwnerCalculations.ChildTotalsStep | src/hooks/useOwnerCalculations.js:29-34 | one more child adds its own part to both sides of that equation |
| OwnerCalculations.ChildrenHoldTheConveyedShare | src/hooks/useOwnerCalculations.js:7-35 | on acyclic input, when every child of the id receives only from it, the children's totals add up to allocated/100 of the id's total |
| OwnerCalculations.FullyConveyedInterestIsConserved | src/hooks/useOwnerCalculations.js:7-35 | and when 100% has been conveyed the children together hold exactly the id's total: no interest is created or lost |
| OwnerCalculations.PercentOfSum | src/hooks/useOwnerCalculations.js:18 | p% and q% of a total add up to (p+q)% of it |
| OwnerCalculations.AcyclicFromAnyId | src/hooks/useOwnerCalculations.js:7-21 | in an acyclic collection no id, present or not, starts a cycle |
| OwnerCalculations.Children | src/hooks/useOwnerCalculations.js:23-25 | exactly the nodes having a transfer from the id, as a subsequence in input order |
| OwnerCalculations.Allocated | src/hooks/useOwnerCalculations.js:27-35 | allocated out is 0 when there are no grantees |
| OwnerCalculations.AllocatedIsOutflow | src/hooks/useOwnerCalculations.js:27-35 | allocated out equals the sum of the percentages of every transfer in the collection from the id, so two transfers from one grantor both count |
| OwnerCalculations.AllocatedSnoc | src/hooks/useOwnerCalculations.js:27-35 | appending a node adds exactly what it received from the id |
| OwnerCalculations.OutflowSnoc | src/hooks/useOwnerCalculations.js:27-35 | appending a node adds its transfers from the id to the outflow |
| OwnerCalculations.SumPercentagesAppend | src/hooks/useOwnerCalculations.js:30-33 | the percentage sum of a concatenation is the sum of the two sums |
| OwnerCalculations.NotChildReceivesNothing | src/hooks/useOwnerCalculations.js:30-33 | a node without a transfer from the id contributes 0 |
| OwnerCalculations.Remaining | src/hooks/useOwnerCalculations.js:37-39 | remaining plus allocated is 100, and remaining is negative exactly when over 100 was allocated (no clamping) |
| OwnerCalculations.LeafOwners | src/hooks/useOwnerCalculations.js:41-62 | exactly the nodes with at least one transfer and allocated out below 99.99, as a subsequence in input order |
| OwnerCalculations.LeafOwnersExclude | src/hooks/useOwnerCalculations.js:41-62 | a root node and a node that conveyed 100% are never leaf owners |
| OwnerCalculations.LegacyParent | src/hooks/useOwnerCalculations.js:64-74 | the first-parent step applies only to a node that exists |
| OwnerCalculations.ChainEndsShrink | src/hooks/useOwnerCalculations.js:64-74 | an acyclic first-parent chain stays acyclic from a smaller visited set |
| OwnerCalculations.NodeLevelIgnoresVisited | src/hooks/useOwnerCalculations.js:64-74 | the tier of an acyclic chain does not depend on the ghost path |
| OwnerCalculations.NodeLevel | src/hooks/useOwnerCalculations.js:64-74 | unknown id or no transfers gives 0 even with a stored tier; otherwise the stored tier; else 1 for a missing first parent; else the first parent's tier plus 1 |
| OwnerCalculations.NodeLevelOfLegacyNode | src/hooks/useOwnerCalculations.js:71-73 | a legacy node sits one tier below its first parent, which is the only transfer consulted |
| AutoLayout.Level | src/hooks/useAutoLayout.js:17-42 | the stored tier wins before the root test; a missing id or a root gives 0; else the first parent's tier plus 1 |
| AutoLayout.LevelIgnoresVisited | src/hooks/useAutoLayout.js:17-42 | the tier of an acyclic chain does not depend on the ghost path |
| AutoLayout.LevelOfLegacyNode | src/hooks/useAutoLayout.js:38-41 | a legacy node sits one tier below its first parent |
| AutoLayout.LevelAgreesWithNodeLevel | src/hooks/useAutoLayout.js:26-36 | when no root stores a non-zero tier, the layout tier and getNodeLevel agree |
| AutoLayout.StoredTierOfRootDiffers | src/hooks/useAutoLayout.js:26-36 | a root with a stored tier of 3 is on tier 3 for the layout and on tier 0 for getNodeLevel |
| AutoLayout.GetLevel | src/hooks/useAutoLayout.js:17-42 | the memoised recursion returns the specification tier, keeps every memo entry sound and records the id; the memo does not change the result |
| AutoLayout.CountOf | src/hooks/useAutoLayout.js:49-50 | a tier's count is positive exactly when some node is on it |
| AutoLayout.FirstOccurrences | src/hooks/useAutoLayout.js:61 | the tier keys are exactly the tiers that occur |
| AutoLayout.MaxRow | src/hooks/useAutoLayout.js:55 | the largest row (at least 1) bounds every row and is one of them |
| AutoLayout.RowFits | src/hooks/useAutoLayout.js:55 | every node's row has between 1 and maxNodes entries |
| AutoLayout.CountOfPrefix | src/hooks/useAutoLayout.js:47-51 | a longer prefix never has fewer nodes on a tier |
| AutoLayout.RankIncreases | src/hooks/useAutoLayout.js:45-51 | within a tier, a later node gets a larger slot index |
| AutoLayout.RankBelowCount | src/hooks/useAutoLayout.js:66 | a node's slot index is below its row length |
| AutoLayout.TierPitch | src/hooks/useAutoLayout.js:69-84 | the tier pitch is 280 in both directions (160+120 and 180+60+40) |
| AutoLayout.GroupByLevel | src/hooks/useAutoLayout.js:44-51 | the levels dictionary holds, per tier, that tier's nodes in input order, and the keys are the tiers in first-insertion order |
| AutoLayout.ComputeLayout | src/hooks/useAutoLayout.js:9-92 | one entry per node id and no other, each at the closed-form slot of its tier and rank; the empty collection gives the empty map |
| AutoLayout.AllPlaced | src/hooks/useAutoLayout.js:61-88 | once every tier is done, every id is placed at its slot |
| AutoLayout.PlaceNext | src/hooks/useAutoLayout.js:66-71 | placing one node keeps every earlier placement |
| AutoLayout.TierDone | src/hooks/useAutoLayout.js:61-72 | finishing a tier's row extends the placed tiers |
| AutoLayout.TierRanks | src/hooks/useAutoLayout.js:62-66 | every node of a tier has a slot index below that tier's row length |
| AutoLayout.TierComplete | src/hooks/useAutoLayout.js:66-71 | after a row's last slot, its whole tier is placed |
| AutoLayout.MaxTierSize | src/hooks/useAutoLayout.js:55 | the loop over the rows computes maxNodes |
| AutoLayout.KeyHasTier | src/hooks/useAutoLayout.js:61-62 | every key names a row of the dictionary |
| AutoLayout.EntryPosition | src/hooks/useAutoLayout.js:62-70 | a row entry is the node with that tier and rank, and its slot is the closed-form position |
| AutoLayout.EntryOfNode | src/hooks/useAutoLayout.js:47-51 | every node is filed under its tier at its rank |
| AutoLayout.GroupStep | src/hooks/useAutoLayout.js:47-51 | one push keeps the grouping invariant |
| AutoLayout.StepKeys | src/hooks/useAutoLayout.js:49 | a new key is added exactly when the tier first occurs |
| AutoLayout.StepCounts | src/hooks/useAutoLayout.js:49-50 | each row's length is its tier's count so far |
| AutoLayout.StepEntries | src/hooks/useAutoLayout.js:50 | the pushed node lands at the end of its row |
| AutoLayout.StepFiled | src/hooks/useAutoLayout.js:50 | every visited node stays filed |
| AutoLayout.SlotAxes | src/hooks/useAutoLayout.js:63-85 | main axis 50 + tier·280; cross axis start + rank·pitch |
| AutoLayout.SameTierSameMainAxis | src/hooks/useAutoLayout.js:69-84 | nodes on one tier share y (vertical) or x (horizontal) |
| AutoLayout.TierPitchConstant | src/hooks/useAutoLayout.js:69-84 | the main-axis distance is (tier difference)·280, so a higher tier is strictly further |
| AutoLayout.SiblingsInInputOrder | src/hooks/useAutoLayout.js:66-85 | within a tier, earlier nodes come first, at least one slot pitch apart |
| AutoLayout.CrossStep | src/hooks/useAutoLayout.js:68-85 | slots are a constant pitch apart (240 vertical, 280 horizontal) |
| AutoLayout.PitchSteps | src/hooks/useAutoLayout.js:68-85 | a larger index is at least one pitch further |
| AutoLayout.SlotsSymmetric | src/hooks/useAutoLayout.js:63-80 | every row is symmetric about the middle of the total span |
| AutoLayout.SlotsWithinSpan | src/hooks/useAutoLayout.js:55-80 | every slot starts at least half a gap (30 or 60) into the span and ends half a gap before its end |
| AutoLayout.CrossWithinSpan | src/hooks/useAutoLayout.js:59-80 | the same bound for any row of at most maxNodes entries |
| AutoLayout.SpanBounds | src/hooks/useAutoLayout.js:59-80 | the arithmetic of max(800, m·240) and max(500, m·280) centring |
| AutoLayout.NoTwoNodesOverlap | src/hooks/useAutoLayout.js:57-88 | two distinct nodes never get the same position; they are a full pitch apart on some axis |
| Formatters.ParsePercentageInput | src/utils/formatters.js:17-35 | text without any digit, the empty text included, reads as null |
| Formatters.NoDigitIsNull | src/utils/formatters.js:17-30 | no digit means NaN in both branches, so null |
| Formatters.ParseTrimmed | src/utils/formatters.js:21-34 | without '/': null exactly when parseFloat gives NaN, and the sign is kept with no value made smaller; with '/': a result means both pieces are numbers and the second is not 0 |
| Formatters.FractionReading | src/utils/formatters.js:21-26 | the slash text has at least two pieces, and a result means both are numbers and the second is not 0 |
| Formatters.NumberPercent | src/utils/formatters.js:29-34 | NaN stays null; strictly between 0 and 1 the value is scaled by 100; any other value, negatives and values over 100 included, is kept |
| Formatters.ParsePlain | src/utils/formatters.js:29-34 | trimmed text without '/' reads as NumberPercent of its parseFloat |
| Formatters.ParseDecimal | src/utils/formatters.js:29-34 | digits, a point and digits read as NumberPercent of their decimal value: so 0.25 becomes 25 and 7.5 stays 7.5 |
| Formatters.ParseNegative | src/utils/formatters.js:29-34 | "-n" reads as -n: a negative number is passed through unchanged |
| Formatters.ParseExampleNotANumber | src/utils/formatters.js:29-30 | "abc" and "" read as null |
| Formatters.ParseIgnoresThirdPiece | src/utils/formatters.js:21-24 | "a/b/c" reads as a/b·100, or null when b is 0 |
| Formatters.ParseWholePercentage | src/utils/formatters.js:29-34 | a whole number parses to itself, with no scaling or clamping (0 and 150 included) |
| Formatters.ParseFraction | src/utils/formatters.js:21-27 | "a/b" parses to (a/b)·100 when b is not 0, and to null when it is |
| Formatters.FractionTextShape | src/utils/formatters.js:21-22 | "a/b" of digits is trimmed and splits into exactly its two pieces |
| Formatters.ParseTrimmedFraction | src/utils/formatters.js:21-27 | any text with a '/' is read from its first two pieces, each trimmed and parsed: (a/b)·100, or null when either is NaN or the second is 0; further pieces are ignored |
| Formatters.ParseSkipsLeadingSpace | src/utils/formatters.js:18 | leading whitespace does not change the parse |
| Formatters.NatTextIsTrimmed | src/utils/formatters.js:18-21 | a rendered number has no surrounding space and no slash |
| Formatters.Round | src/utils/formatters.js:38-54 | the nearest integer, halves rounded up |
| Formatters.Abs | src/utils/formatters.js:38-39 | the absolute value |
| Formatters.Euclid | src/utils/formatters.js:40-45 | Euclid's gcd is 0 exactly when both inputs are 0 |
| Formatters.Gcd | src/utils/formatters.js:37-46 | the while loop computes Euclid(abs(round(a)), abs(round(b))) |
| Formatters.EuclidDivides | src/utils/formatters.js:37-46 | the result divides both inputs |
| Formatters.EuclidGreatest | src/utils/formatters.js:37-46 | every common divisor divides the result |
| Formatters.EuclidIsGreatestCommonDivisor | src/utils/formatters.js:37-46 | the result is the greatest common divisor |
| Formatters.EuclidWithZero | src/utils/formatters.js:37-46 | gcd(x, 0) = gcd(0, x) = x |
| Formatters.DividesSigned | src/utils/formatters.js:38-39 | a divisor of abs(n) divides n: the sign is ignored |
| Formatters.DividesCombination | src/utils/formatters.js:42 | a common divisor divides x·q + y, the step behind a % b |
| Formatters.MultipleMod | src/utils/formatters.js:42 | (d·k) % d = 0 |
| Formatters.DivisorBound | src/utils/formatters.js:37-46 | a divisor of a positive number is between 1 and the number |
| Formatters.Reduced | src/utils/formatters.js:52-60 | the printed fraction num/den has den dividing 10⁶, equals round(p·10⁴)/10⁶, and is in lowest terms |
| Formatters.ReducedFacts | src/utils/formatters.js:57-60 | dividing numerator and denominator by their gcd gives coprime parts with the same ratio |
| Formatters.Coprime | src/utils/formatters.js:57-60 | dividing by the gcd leaves coprime parts |
| Formatters.AbsQuotient | src/utils/formatters.js:59 | the absolute value commutes with exact division |
| Formatters.RoundOfExactQuotient | src/utils/formatters.js:59-60 | Math.round of an exact quotient is the quotient |
| Formatters.RoundOfInt | src/utils/formatters.js:54 | Math.round of an integer is the integer |
| Formatters.FormatFraction | src/utils/formatters.js:48-63 | the method computes FractionText: "0" for 0, "1/1" for 100, else the reduced num/den; the divisor-zero branch is unreachable |
| Formatters.FractionOfTinyShare | src/utils/formatters.js:52-62 | a non-zero percentage that rounds to 0 prints "0/1" |
| Formatters.FractionOfThirtySecond | src/utils/formatters.js:52-62 | 3.125 prints "1/32" |
| Formatters.FractionOfThousandth | src/utils/formatters.js:52-62 | 0.1 prints "1/1000" |
| Formatters.FractionOfHalf | src/utils/formatters.js:52-62 | 50 prints "1/2" |
| Formatters.Digits | src/utils/formatters.js:11 | only digits are kept, no more than the input has |
| Formatters.DigitsAreFiltered | src/utils/formatters.js:11 | the digits are the input filtered by IsDigit: every digit kept, in order, with its multiplicity |
| Formatters.FormatDateInput | src/utils/formatters.js:10-15 | the output's digits are the input's first (at most 8) digits in order; a '/' at index 2 exactly when more than 2 digits, at index 5 exactly when more than 4, nowhere else; its length is the digit count (at most 8) plus the slashes |
| Formatters.DigitsOfDigits | src/utils/formatters.js:11 | a digit string is kept whole |
| Formatters.DigitsAppend | src/utils/formatters.js:11 | digit extraction distributes over concatenation |
| Formatters.DigitsAroundSlash | src/utils/formatters.js:13-14 | the inserted slashes are dropped again |
| Formatters.MaskMonth | src/utils/formatters.js:13 | the month mask keeps the digits |
| Formatters.MaskMonthDay | src/utils/formatters.js:14 | the month/day mask keeps the first 8 digits |
| Formatters.SlashAfterMonth | src/utils/formatters.js:13 | "MM/D…" has its single slash at index 2 |
| Formatters.SlashesAfterMonthAndDay | src/utils/formatters.js:14 | "MM/DD/Y…" has its slashes at indices 2 and 5 only |
| Formatters.FormatDateIdempotent | src/utils/formatters.js:10-15 | masking a masked value changes nothing |
| Formatters.ToLower | src/utils/formatters.js:7 | lower-casing keeps word characters word characters |
| Formatters.ToUpper | src/utils/formatters.js:7 | upper-casing keeps word characters word characters |
| Formatters.ToTitleCase | src/utils/formatters.js:5-8 | length kept, letters equal up to case, and a character is upper case exactly when it is a letter at a word boundary; the empty string is returned unchanged |
| Formatters.TitleCaseIdempotent | src/utils/formatters.js:5-8 | title-casing twice is title-casing once |
| Formatters.DocReference | src/utils/formatters.js:76-84 | "(book/page)" when both are present, else the instrument number, else the title's first 12 characters; empty exactly when none applies |
| Formatters.DocumentLabel | src/utils/formatters.js:70-92 | "" with neither document nor relationship; otherwise the document part and the relationship joined by one space |
| Formatters.FindIndex | src/utils/formatters.js:66 | the first index with that id, or -1 exactly when there is none |
| Formatters.PersonColor | src/utils/formatters.js:65-68 | undefined exactly when the person is not in the list |
| Formatters.FindIndexUnique | src/utils/formatters.js:66 | with unique ids the index of the i-th person is i |
| Formatters.PaletteDistinct | src/utils/constants.js:4-15 | the ten palette colours are distinct |
| Formatters.ColorAtIndex | src/utils/formatters.js:65-68 | the i-th person gets palette colour i mod 10 |
| Formatters.PersonColorRepeats | src/utils/formatters.js:67 | persons ten apart share a colour |
| Formatters.FirstTenColorsDiffer | src/utils/formatters.js:67 | the first ten persons get ten different colours |
| FlowChart.CheckPercentage | src/components/FlowChart.jsx:153-163 | accepted exactly when the input parses to a value in (0, remaining + 0.01]; "Invalid percentage" when it does not parse, the range message otherwise |
| FlowChart.Chart.ValidatePercentage | src/components/FlowChart.jsx:218-228 | the transfer dialog applies the same check |
| FlowChart.ResolvedDocId | src/components/FlowChart.jsx:174-179 | "new" cites a document exactly when a document field is filled in; otherwise the selection is kept |
| FlowChart.CreatedDocuments | src/components/FlowChart.jsx:174-179 | a document is created exactly when "new" is chosen with a filled-in field, and it is the one cited |
| FlowChart.KnownName | src/components/FlowChart.jsx:200 | the found person's primaryName when it is non-empty, otherwise "Unknown" |
| FlowChart.ExistingNode | src/components/FlowChart.jsx:172 | a node of the person other than root, or none exactly when there is none |
| FlowChart.ExistingNodeIsFirst | src/components/FlowChart.jsx:172 | the node found is the first non-root node of the person, as `find` returns |
| FlowChart.GranteeOwners | src/components/FlowChart.jsx:181-210 | with an existing node the count is kept; else exactly one node is appended after the old ones, carrying the single transfer for the person under the new id |
| FlowChart.GranteeNode | src/components/FlowChart.jsx:195-210 | the new node has the new id, the person, the single transfer and the given stored tier; its name is never empty and is the title-cased typed name when one was typed |
| FlowChart.GranteeNodeFields | src/components/FlowChart.jsx:198-208 | with no typed name the new node takes the person's name or 'Unknown'; nameAsWritten is the trimmed typed name; notes are empty; each colour is the form's, else null |
| FlowChart.UpdateKeepsIds | src/components/FlowChart.jsx:184-194 | an id-preserving update keeps the id set |
| FlowChart.MergeTransfer | src/components/FlowChart.jsx:184-192 | the merged node appends the transfer; each colour is replaced by the form's when one is given and kept otherwise; id, person, stored tier, names, notes, relationship and source document are kept |
| FlowChart.GranteeMergesIntoExistingNode | src/components/FlowChart.jsx:172-194 | with an existing node for the person, even above a cyclic first-parent chain: no node added, ids kept, others untouched, the transfer appended, the tier, names and notes untouched, and each colour replaced only when the form gives one |
| FlowChart.GranteeCreatesNode | src/components/FlowChart.jsx:195-210 | otherwise exactly one node appended, with the single transfer from the grantor and tier getNodeLevel(grantor)+1 in both tier computations |
| FlowChart.FindAppendFresh | src/components/FlowChart.jsx:198-199 | a node appended under a fresh id is found under that id |
| FlowChart.Chart.SubmitGrantee | src/components/FlowChart.jsx:149-213 | ignored without a grantor, a percentage or a new name; no change on an alert; else the records become AddGrantee and the dialog closes |
| FlowChart.Chart.ApplyGrantee | src/components/FlowChart.jsx:165-212 | the accepted submission's person, document and node updates; the tier chain above the grantor must end only when a node is created |
| FlowChart.Chart.PlaceGrantee | src/components/FlowChart.jsx:181-210 | merge into the existing node or append the new one; the tier chain must end only for a new node |
| FlowChart.Chart.ResolvePerson | src/components/FlowChart.jsx:165-169 | "new" creates the person under the fresh id; otherwise the selection is used and nobody is added |
| FlowChart.Chart.ResolveDocument | src/components/FlowChart.jsx:174-179 | the cited document, with a document appended exactly when one is created |
| FlowChart.Chart.AddPerson | src/components/FlowChart.jsx:102-107 | appends a person with the title-cased trimmed name and no aliases, returning its id |
| FlowChart.Chart.AddDocument | src/components/FlowChart.jsx:109-113 | appends the document under its new id, returning the id |
| FlowChart.AddSourceTransfer | src/components/FlowChart.jsx:230-241 | the transfer is appended only to the target node; persons and every other node are unchanged; the documents grow by the created document, if any |
| FlowChart.Chart.SubmitTransfer | src/components/FlowChart.jsx:215-244 | ignored without a target, grantor or percentage; no change on an alert; else AddSourceTransfer and the dialog closes |
| FlowChart.Chart.ApplySourceTransfer | src/components/FlowChart.jsx:230-243 | the accepted transfer's document and node updates |
| FlowChart.ApplyEdit | src/components/FlowChart.jsx:247-269 | the edited node keeps id, stored tier and source document; it takes the title-cased trimmed name, the name as written, notes, person and relationship from the form; each colour is null exactly when the form's field is blank, else that colour; the transfers are replaced only when supplied |
| FlowChart.EditKeepsInterest | src/components/FlowChart.jsx:264-267 | an edit without transfers changes nobody's interest |
| FlowChart.Chart.SubmitEdit | src/components/FlowChart.jsx:246-272 | only the node being edited changes, and the dialog closes |
| FlowChart.StandaloneNode | src/components/FlowChart.jsx:283-308 | the new node has no transfers, stored tier 0 and the resolved source document |
| FlowChart.StandaloneNodeFields | src/components/FlowChart.jsx:276-306 | the node's person is the new or the selected one; name and nameAsWritten are both the title-cased typed name for a new person, else the person's name or 'Unknown'; notes come from the form; each colour is the form's, else null |
| FlowChart.SourceDocument | src/components/FlowChart.jsx:288-293 | when a document is created it is the one cited; otherwise the selection is cited unless it is blank, "none" or "new", and then nothing is |
| FlowChart.StandaloneDocuments | src/components/FlowChart.jsx:288-292 | at most one document, created exactly when "new" is chosen with a filled-in field, and it is the form's fields under the new id |
| FlowChart.StandaloneIsRoot | src/components/FlowChart.jsx:295-310 | under a fresh id the standalone node holds 100% and is on tier 0 for both tier computations |
| FlowChart.Chart.SubmitAddNode | src/components/FlowChart.jsx:275-312 | the records become AddStandalone and the dialog closes |
| FlowChart.Chart.PlaceStandalone | src/components/FlowChart.jsx:276-308 | the person, the source document and the node are appended: the records become AddStandalone |
| FlowChart.Chart.ResolveSourceDocument | src/components/FlowChart.jsx:288-293 | a new document when asked for and filled in, the selected one unless "none" or "new", else none |
| FlowChart.Chart.BuildStandalone | src/components/FlowChart.jsx:296-308 | the node built from the resolved person and document is StandaloneNode |
| FlowChart.StripTransfersFrom | src/components/FlowChart.jsx:131-134 | exactly the node's transfers not from the id remain, in order; nothing else changes |
| FlowChart.DeleteOwner | src/components/FlowChart.jsx:128-136 | no node is added; no remaining node has the id or a transfer from it |
| FlowChart.DeleteKeepsOthersInOrder | src/components/FlowChart.jsx:128-136 | every node without the id survives with its transfers from the id stripped, and the survivors keep their order |
| FlowChart.DeleteRemovesId | src/components/FlowChart.jsx:128-136 | after a delete the id set is the old one minus the id |
| FlowChart.DeletedIdWasThere | src/components/FlowChart.jsx:128-136 | a remaining id was there before and is not the deleted one |
| FlowChart.OtherIdStays | src/components/FlowChart.jsx:128-136 | every other id remains |
| FlowChart.DeleteLeavesNoTransferFrom | src/components/FlowChart.jsx:128-136 | no remaining node receives from the deleted one, and each is an old node with only those transfers removed |
| FlowChart.DeleteIdempotent | src/components/FlowChart.jsx:128-136 | deleting twice is deleting once |
| FlowChart.Chart.Delete | src/components/FlowChart.jsx:128-142 | the nodes become DeleteOwner and the saved position of the id is dropped |
| FlowChart.ClearDocumentRefs | src/components/FlowChart.jsx:329-334 | a transfer's document is nulled exactly when it cited the document; nothing else changes |
| FlowChart.NoCitationLeft | src/components/FlowChart.jsx:329-334 | afterwards no node cites the document |
| FlowChart.DeleteDocumentKeepsInterest | src/components/FlowChart.jsx:327-335 | deleting a document changes nobody's interest |
| FlowChart.Chart.DeleteDocument | src/components/FlowChart.jsx:327-335 | exactly the document goes, and every citation of it is nulled |
| FlowChart.FindSameWeights | src/hooks/useOwnerCalculations.js:10-16 | collections with the same ids, grantors and percentages find the same weights |
| FlowChart.TotalsAgree | src/hooks/useOwnerCalculations.js:7-21 | such collections give every node the same total |
| FlowChart.SharesAgree | src/hooks/useOwnerCalculations.js:15-20 | and the same transfer sums |
| FlowChart.Chart.DocumentGrantees | src/components/FlowChart.jsx:72-74 | exactly the nodes with a transfer citing the document, in order |
| FlowChart.PersonIdsOf | src/components/FlowChart.jsx:80-88 | the persons with a node, each once |
| FlowChart.FirstIndex | src/components/FlowChart.jsx:82-88 | the index of a person's first node, or the length when none: everything before it belongs to someone else |
| FlowChart.FirstIndexOfPrefix | src/components/FlowChart.jsx:82-88 | a first node found in a prefix is the first node overall |
| FlowChart.PersonIdsInFirstAppearanceOrder | src/components/FlowChart.jsx:80-88 | the keys come in the order in which their persons first appear among the nodes |
| FlowChart.PersonTotals | src/components/FlowChart.jsx:76-94 | one entry per person holding a leaf node |
| FlowChart.PersonTotalsEntries | src/components/FlowChart.jsx:76-94 | each entry lists its own person's leaf nodes, at least one, sums their received interest and carries the person record |
| FlowChart.EntryOfListedPerson | src/components/FlowChart.jsx:82-90 | the entry of a person with a visited node lists only that person's nodes, at least one |
| FlowChart.LeafListedUnderItsPerson | src/components/FlowChart.jsx:76-94 | every leaf node is listed under its own person |
| FlowChart.EntryOfAbsentPerson | src/components/FlowChart.jsx:82-88 | a person without a visited node has the initial empty entry |
| FlowChart.Chart.GetPersonTotals | src/components/FlowChart.jsx:76-94 | the forEach over the leaves, with the totals object, returns PersonTotals |
| FlowChart.Chart.AddLeaf | src/components/FlowChart.jsx:80-91 | one visit keeps the loop invariant |
| FlowChart.TotalsStep | src/components/FlowChart.jsx:80-91 | starting the person's entry if needed, then adding the node's received interest, keeps the invariant |
| FlowChart.EntryStep | src/components/FlowChart.jsx:89-90 | the entry of the visited node's person grows by its total and by the node |
| FlowChart.NodesOfStep | src/components/FlowChart.jsx:90 | a person's node list grows by the visited node exactly when it is theirs |
| FlowChart.OrderStep | src/components/FlowChart.jsx:82-88 | a key is added exactly when the person is new |
| FlowChart.EntriesStep | src/components/FlowChart.jsx:82-90 | every entry stays correct after a visit |
| FlowChart.ValuesAreTotals | src/components/FlowChart.jsx:93 | after the loop, Object.values is PersonTotals |
| FlowChart.MapOverwrite | src/components/FlowChart.jsx:89-90 | two writes to one key leave the last |
| FlowChart.CurrentOwnership | src/components/FlowChart.jsx:492-495 | with nothing allocated out it is the received interest; with 100 allocated it is 0 |
| FlowChart.CurrentIsRemainingShare | src/components/FlowChart.jsx:492-495 | the current ownership is received·(100 − allocated)/100, the remaining percent of the received interest |
| FlowChart.PercentOfIsShare | src/components/FlowChart.jsx:501 | the breakdown's amount is the share the calculator adds |
| FlowChart.BreakdownOf | src/components/FlowChart.jsx:498-510 | a row's amount is parentTotal·pct/100; transferPct is the percentage; the three fractions render the parent total, the percentage and the amount; the name is the grantor's when found and non-empty, else "Unknown" |
| FlowChart.TransferBreakdown | src/components/FlowChart.jsx:498 | one row per inbound transfer, row k being the breakdown of transfer k |
| FlowChart.BreakdownIsShares | src/components/FlowChart.jsx:498-510 | with every grantor present the amounts add up to the unguarded sum of shares |
| FlowChart.BreakdownAddsUpToTotal | src/components/FlowChart.jsx:498-510 | with every grantor present and no cycle, the amounts add up to the node's total interest |
| FlowChart.BreakdownOfMissingParent | src/components/FlowChart.jsx:499-503 | a missing grantor counts as 100 and "Unknown" in the breakdown, but as 0 in the calculator |
| FlowChart.Chart.constructor | src/utils/constants.js:17-31 | the initial state: the original owner and its person alone, nothing open |
| FlowChart.Chart.StartAddGrantee | src/components/FlowChart.jsx:116-118 | opens the grantee dialog for the node |
| FlowChart.Chart.StartAddTransfer | src/components/FlowChart.jsx:120-122 | opens the transfer dialog for the node |
| FlowChart.Chart.StartEdit | src/components/FlowChart.jsx:124-126 | opens the edit dialog for the node |
| EditOwner.OrBlank | src/components/modals/EditOwnerModal.jsx:25-27 | a colour field shows "" exactly for a null or blank colour |
| EditOwner.NullIfBlank | src/components/modals/EditOwnerModal.jsx:74-75 | `value \|\| null`: null exactly for a null or blank value |
| EditOwner.Loaded | src/components/modals/EditOwnerModal.jsx:19-32 | the transfers are copied one for one, untyped; name, notes, person and relationship are the node's; nameAsWritten is the stored one when non-empty, else the name; each colour shows as OrBlank of the stored one |
| EditOwner.Form.Load | src/components/modals/EditOwnerModal.jsx:19-32 | the form's fields become Loaded(owner) |
| EditOwner.Form.constructor | src/components/modals/EditOwnerModal.jsx:9-17 | the form starts blank |
| EditOwner.Form.ChangePercentage | src/components/modals/EditOwnerModal.jsx:34-38 | only the transfer at the index changes, taking the typed text |
| EditOwner.Form.ChangeDocument | src/components/modals/EditOwnerModal.jsx:40-44 | only the transfer at the index changes, and a blank choice becomes null |
| EditOwner.Form.SetEdgeColor | src/components/modals/EditOwnerModal.jsx:191-195 | only the transfer at the index changes colour |
| EditOwner.Form.ResetEdgeColor | src/components/modals/EditOwnerModal.jsx:200-203 | only the transfer at the index loses its colour |
| EditOwner.DropIndex | src/components/modals/EditOwnerModal.jsx:51 | exactly the given index goes and the others keep their order; an index out of range changes nothing |
| EditOwner.Form.DeleteTransfer | src/components/modals/EditOwnerModal.jsx:46-52 | refused with the alert when at most one transfer remains; otherwise exactly that index goes; a non-empty list stays non-empty |
| EditOwner.CleanTransfers | src/components/modals/EditOwnerModal.jsx:56-76 | rejected exactly when some effective value does not parse or is ≤ 0; else the same length and order, each cleaned with the parsed percentage |
| EditOwner.Cleaned | src/components/modals/EditOwnerModal.jsx:70-75 | grantor and percentage kept; document and colour become null exactly when null or blank, and are kept otherwise |
| EditOwner.SubmissionOf | src/components/modals/EditOwnerModal.jsx:54-79 | invalid with the alert exactly when some transfer is unacceptable; else every form field is passed on as it is, with CleanTransfers' transfers |
| EditOwner.Form.Submit | src/components/modals/EditOwnerModal.jsx:54-79 | the submit of the form's current fields |
| EditOwner.UntouchedTransfersSurvive | src/components/modals/EditOwnerModal.jsx:56-76 | loaded transfers with positive percentages survive cleaning unchanged |
| EditOwner.SaveWithoutChangesKeepsNode | src/components/modals/EditOwnerModal.jsx:19-79 | loading a node and saving it at once leaves the node as it was, with its name normalised |
| EditOwner.BlankRoundTrip | src/components/modals/EditOwnerModal.jsx:25-27 | a colour shown in the form and submitted back is the same colour |
| EditOwner.TypedWholeNumberIsUsed | src/components/modals/EditOwnerModal.jsx:57-62 | a typed positive whole number becomes the percentage |
| EditOwner.ClearedFieldRejectsSubmit | src/components/modals/EditOwnerModal.jsx:57-68 | a cleared percentage field (NaN) rejects the whole submission |
| PersonManager.TrimAll | src/components/modals/PersonManagerModal.jsx:19 | every piece is trimmed, one for one |
| PersonManager.ParseAliases | src/components/modals/PersonManagerModal.jsx:19 | the aliases are the trimmed comma pieces without the empty ones: a subsequence in order, each non-empty, trimmed and comma-free, and every non-empty trimmed piece kept as often as it occurs; without a comma, the trimmed text or nothing |
| PersonManager.PiecesAreAliases | src/components/modals/PersonManagerModal.jsx:19 | each kept piece is non-empty, trimmed and comma-free |
| PersonManager.TrimmedPiecesHaveNoComma | src/components/modals/PersonManagerModal.jsx:19 | trimmed comma-free pieces stay comma-free |
| PersonManager.TrimKeepsNoComma | src/components/modals/PersonManagerModal.jsx:19 | trimming adds no character |
| PersonManager.SplitJoinedAliases | src/components/modals/PersonManagerModal.jsx:13-19 | splitting the ", "-joined aliases at commas gives each alias behind one space |
| PersonManager.TrimSpacedAliases | src/components/modals/PersonManagerModal.jsx:13-19 | trimming those pieces gives the aliases back |
| PersonManager.AliasRoundTrip | src/components/modals/PersonManagerModal.jsx:13-19 | parsing the pre-filled text of stored aliases gives the same aliases |
| PersonManager.UpdateOf | src/components/modals/PersonManagerModal.jsx:17-20 | the saved name is title-cased and trimmed, the aliases parsed |
| PersonManager.SaveUnchangedKeepsPerson | src/components/modals/PersonManagerModal.jsx:10-22 | saving unchanged fields keeps a normalised person's name and aliases |
| PersonManager.UpdatePersons | src/components/FlowChart.jsx:315-319 | exactly the person with the id takes the new name and aliases; every other person and every id is unchanged |
| PersonManager.NodeCountAppend | src/components/modals/PersonManagerModal.jsx:28 | a node counts once for its own person and not for others |
| PersonManager.NodeCountZero | src/components/modals/PersonManagerModal.jsx:28 | the count is 0 exactly when no node belongs to the person |
| PersonManager.NodeCount | src/components/modals/PersonManagerModal.jsx:28 | a person has at most as many nodes as there are nodes |
| PersonManager.Registry.constructor | src/components/modals/PersonManagerModal.jsx:6-8 | nothing is being edited |
| PersonManager.Registry.StartEdit | src/components/modals/PersonManagerModal.jsx:10-14 | pre-fills the name and the aliases joined by ", " ("" for none) |
| PersonManager.Registry.Save | src/components/modals/PersonManagerModal.jsx:16-22 | the persons become the update of the edited id, and the edit closes |
| PersonManager.Registry.Cancel | src/components/modals/PersonManagerModal.jsx:59 | closes the edit and updates nobody |
| Text.Trim | src/utils/formatters.js:18 | the result has no surrounding whitespace and is no longer than the input |
| Text.TrimCutsOnlySpace | src/utils/formatters.js:18 | the result is a slice of the input with only whitespace cut from each end, so with IsTrimmed it is the longest such slice |
| Text.TrimmedIsFixed | src/utils/formatters.js:18 | trimming trimmed text changes nothing |
| Text.TrimSkipsLeadingSpace | src/components/modals/PersonManagerModal.jsx:19 | leading whitespace before trimmed text is trimmed away |
| Text.Split | src/utils/formatters.js:22 | the pieces contain no separator, there are several exactly when the text has one, and joining them gives the text back |
| Text.SplitJoin | src/utils/formatters.js:22 | splitting joined separator-free pieces gives them back |
| Text.SplitNoSeparator | src/utils/formatters.js:22 | text without the separator is one piece |
| Text.SplitAfterPiece | src/utils/formatters.js:22 | a leading separator-free piece splits off |
| Text.FractionValue | src/utils/formatters.js:29 | the digits after the point have value in [0, 1) |
| Text.LeadingDigits | src/utils/formatters.js:29 | the longest digit prefix |
| Text.ParseFloatNatText | src/utils/formatters.js:29 | parseFloat of a rendered whole number is the number |
| Text.ParseFloatNatTextThen | src/components/modals/EditOwnerModal.jsx:58 | parseFloat stops at the first character that cannot continue the number |
| Text.ParseFloatDigitsThen | src/components/modals/EditOwnerModal.jsx:58 | a digit string followed by a non-number character parses to its value |
| Text.ParseFloatOfWhole | src/utils/formatters.js:29 | text of whole digits only parses to their value |
| Text.ParseFloatDecimal | src/utils/formatters.js:29 | digits, a point and digits parse to the whole part plus the value of the digits after the point |
| Ownership.Find | src/hooks/useOwnerCalculations.js:10 | the node with that id, or none exactly when no node has it |
| Ownership.FindIsFirst | src/hooks/useOwnerCalculations.js:10 | the node found is the first one with the id |
| Ownership.FindUnique | src/hooks/useAutoLayout.js:20 | with unique ids the i-th node is found under its own id |
| Ownership.FindPerson | src/components/FlowChart.jsx:84 | the person with that id, or none when nobody has it |
| Ownership.FindPersonIsFirst | src/components/FlowChart.jsx:84 | the person found is the first one with the id |
| Seqs.Filter | src/hooks/useOwnerCalculations.js:24 | the kept elements, all of them, in order, each as often as in the input |
| Seqs.FilterAppend | src/hooks/useOwnerCalculations.js:24 | filtering distributes over concatenation |

## Left out

- React rendering, styling and the modal animations are not modelled. Nor are ReactFlow nodes and edges beyond the positions and the displayed values. These are all presentation.
- The form-collecting modals (add grantee, add node, add transfer, document manager) are not modelled. They only gather fields, and their submissions appear here as the handlers' form parameters.
- handleUpdateDocument, handleViewNotes and the notes view are not modelled, nor the person manager's and document manager's show flags. They raise no property beyond a record update.
- EditOwnerModal's getOwnerName is a display lookup only and is not modelled.
- Storage, PDF, Excel export and project load/save are I/O and foreign libraries, and are not modelled.
- generateId draws from Math.random. It becomes a parameter: the id the call would draw. Freshness is an explicit precondition only where a lemma needs it.
- alert is modelled as a result value (Alerted, Refused, Invalid). There is no dialog.
- Text.ParseFloat accepts only an optional sign, digits, an optional point and digits after leading whitespace. Exponents, "Infinity" and hexadecimal are not modelled, nor IEEE-754 rounding. Percentages are exact reals.
- EditOwner.Effective: an untouched transfer's stored number goes through parseFloat as a string in the source. The model uses the number itself, because the two differ only in floating-point edge cases.
- Formatters.ToTitleCase works on ASCII letters, digits and '_' as word characters. Unicode case mapping is not modelled.
- Formatters.PersonColor gives None for an unknown person, where the source yields undefined. Palette membership of the hex strings beyond distinctness is not stated.
- AutoLayout.ComputeLayout requires unique node ids, which generateId provides. The tier keys are visited in first-insertion order, while JavaScript visits integer-like keys in ascending order. With unique ids the resulting position map is the same under any order of the tiers.
- AutoLayout.ComputeLayout: `direction` is a two-valued datatype. Any value other than 'vertical' selects the horizontal branch as in the source.
- OwnerCalculations.NodeLevel and AutoLayout.Level have no cycle guard in the source. Both require the first-parent chain to end (ChainEnds), instead of modelling non-termination.
- OwnerCalculations.CalculateTotalPercentage models the visited Set as a value passed down to each branch (the source copies it per branch). Aliasing of the Set is not modelled.
- FlowChart.PersonTotals sums received interest (calculateTotalPercentage), not the remainder, as the source does.
- The `memo` object of getLevel is a map value threaded through GetLevel. The React memo identity of the callbacks is not modelled.
- EditOwner.SaveWithoutChangesKeepsNode states that the name comes back title-cased and trimmed, not that it is kept exactly. It requires colours and documents that are not blank strings, because the form turns those into null.
- PersonManager.SaveUnchangedKeepsPerson requires a name already in title case and trimmed aliases without commas. Other stored values are normalised on save.
- FlowChart.PersonTotals lists the entries in order of first appearance of their person. JavaScript's Object.values lists integer-like keys first, in ascending order. generateId can produce an all-digit id, and a loaded project can carry any id; for those the source's order differs from the model's.
- Formatters.DocReference cuts the title to its first 12 characters. JavaScript's substring counts UTF-16 code units, so a title with characters outside the Basic Multilingual Plane is cut at a different place than in the model.
- FlowChart.AddGrantee and FlowChart.AddStandalone only assemble the records after a submission from GranteeOwners, GranteeNode, StandaloneNode and the created person and document. They carry no contract of their own; Chart.SubmitGrantee, Chart.ApplyGrantee and Chart.SubmitAddNode state their meaning.
- Chart.SubmitGrantee requires the grantor's first-parent chain to end whenever the person has no node yet, also for a submission that is then ignored or refused. The source needs no such guard; without it NodeLevel would not be defined.
- Helper functions that only compute (FractionText, Share, TotalFrom, SharesFrom, NodeLevelFrom, LevelFrom, Position, SlotPosition, Effective) carry no contract of their own. The lemmas and methods in the table state their meaning.
