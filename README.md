# canda-gff core in Dafny

A Dafny model of the three record-processing tools of canda-gff. These tools
post-process GFF3 annotations that Liftoff produces when it lifts genes from
one genome assembly to another:

- `reading-frame-finder.py` fills in column 8 (the frame) of every CDS row
  on strand `+` or `-`. A `+` strand row gets `start mod 3`. A `-` strand
  row gets `(sequence length - end) mod 3`. Every other row, CDS rows on
  other strands included, is copied unchanged, and so is any row with a `#`
  in some field. A quick check of the first two lines of the genome FASTA
  comes first.
- `checkGeneChildren.py` gives every gene a child signature. The signature
  is the distinct feature types of the gene's children, in first-seen order,
  joined by `:`. Gene ids are grouped by signature, and the groups of chosen
  signatures are written to a two-column table.
- `statsLiftoffGFF.py` lists the store's feature types without the `.`
  placeholder, gathers per-gene attributes, counts features per sequence,
  and writes three kinds of tab-separated report:
  - for each gene type, one report of six index-aligned lists of
    attributes (ID, description, sequence_ID, coverage and two 0/1 flags);
  - one report of per-sequence counts of each valid type, skipping
    sequence names that hold `extracting`, `lifting` or `aligning`;
  - one summary of feature counts per type.

Files:

- `outcomes.dfy`: `Option` and `Result`.
- `text.dfy`: Python's `str.join`, `str.split`, `str()` and `int()` of
  integers, substring search, string order with `sorted()`, and the key
  order of a dict filled by `update`.
- `gff.dfy`: an in-memory feature store. It stands in for the gffutils
  database: the features in file order, plus the ordered children of each
  feature id.
- `frame_repair.dfy`, `gene_children.dfy`, `liftoff_stats.dfy`: one module
  per tool.

Each loop of the source is a method with a `for` or `while` loop. The method
is proved against a specification function or predicate, and the properties
the tools promise are proved as lemmas about those functions. The source has
no classes, and every dict and list it mutates is local to one function. So
the model has no classes either: these collections are local `map` and `seq`
variables that the methods reassign.

Behaviours of the code that the model keeps as written:

- The sequence-name denylist is matched case-sensitively, because the
  regex at statsLiftoffGFF.py:111 is compiled without `re.I`. So
  `Lifting` is kept.
- A failed FASTA check raises an exception that is not caught, because
  only `FileNotFoundError` is handled (reading-frame-finder.py:20-29).
- A wanted signature with no group makes `writeFeatureSets` fail while
  iterating `None` (checkGeneChildren.py:45-46).
- A `-` strand CDS ending at 100 on a sequence of length 1000 gets frame
  (1000 - 100) mod 3 = 0, proved by `MinusFrameExample`.

## Model

| member | source | states |
|---|---|---|
| FrameRepair.ContigLengths | reading-frame-finder.py:42-49 | the length map has exactly the record names as keys, and maps each name to the length of its sequence |
| FrameRepair.GenomeCheckVerdicts | reading-frame-finder.py:20-28 | for a second line read by `readline` with any ending, the check passes iff the first line holds `>` and the line's content is all `acgtn` in either case; a missing `>` is reported first, then a non-nucleotide line |
| FrameRepair.CrlfGenomeAccepted | reading-frame-finder.py:21-28 | a FASTA file with `\r\n` line endings passes the check |
| FrameRepair.PlusStrandFrame | reading-frame-finder.py:74-77 | an unmarked 9-field `+` strand CDS row with an integer start is rewritten, and its frame field reads back as `start mod 3`, a value in 0..2 |
| FrameRepair.MinusStrandFrame | reading-frame-finder.py:78-81 | an unmarked 9-field `-` strand CDS row on a known sequence is rewritten, and its frame reads back as `(len - end) mod 3`, which lies in 0..2 even when end > len |
| FrameRepair.RepairTouchesOnlyFrame | reading-frame-finder.py:73-83 | a written row has as many fields as its input and differs from it only in column 8; it differs at all only for an unmarked CDS row on strand `+` or `-` |
| FrameRepair.PassThroughRows | reading-frame-finder.py:70-71 | rows with `#` in any field (even CDS rows), non-CDS rows and CDS rows on other strands are written unchanged |
| FrameRepair.RowFailures | reading-frame-finder.py:73-79 | an unmarked row without nine fields (the empty row too) fails the unpacking; a `-` strand CDS row whose sequence has no length fails the lookup |
| FrameRepair.RepairRowIdempotent | reading-frame-finder.py:74-83 | repairing a repaired row gives the same row again |
| FrameRepair.RepairAllRowwise | reading-frame-finder.py:69-83 | the output stream succeeds iff every row does; it then has one row per input row, in order, each the repair of its input row |
| FrameRepair.RepairAllFirstError | reading-frame-finder.py:69-83 | the first failing row decides the error of the whole stream |
| FrameRepair.RepairAllIdempotent | reading-frame-finder.py:69-83 | running the tool on its own output gives the same rows |
| FrameRepair.PlusFrameExample | reading-frame-finder.py:75 | a `+` strand CDS row starting at 100 gets frame `1`, and nothing else changes |
| FrameRepair.MinusFrameExample | reading-frame-finder.py:79 | a `-` strand CDS row ending at 100 on a 1000-long sequence gets frame `0`, and nothing else changes |
| FrameRepair.RepairFrames | reading-frame-finder.py:69-83 | the loop writes one repaired row per input row, in order; on success the rows are the stream's output; on failure the rows written before the failing row remain and the error is that row's |
| GeneChildren.ChildSignature | checkGeneChildren.py:18-22 | the key the loop builds from the children equals the gene's signature: the distinct child types in first-seen order, joined by `:` |
| GeneChildren.SignatureParts | checkGeneChildren.py:18-22 | the signature's parts are distinct, are exactly the child types, and appear in the order of first appearance; a gene without children has the empty signature |
| GeneChildren.RepeatedTypeKeepsSignature | checkGeneChildren.py:21 | a child whose type was already seen does not change the signature |
| GeneChildren.GroupStep | checkGeneChildren.py:24-30 | one gene joins the group of its signature, which is created when the key is absent or maps to an empty set; the grouping invariant then covers one more gene |
| GeneChildren.GetGeneChildren | checkGeneChildren.py:14-31 | every gene id is in the group of its own signature, no group is empty, and a group holds only ids of genes with that signature |
| GeneChildren.GroupsCoverGenes | checkGeneChildren.py:17-30 | the union of the groups is exactly the set of gene ids |
| GeneChildren.GeneInItsGroup | checkGeneChildren.py:17-30 | each gene id lies in some group |
| GeneChildren.GroupMemberIsGene | checkGeneChildren.py:24-30 | each group member is the id of a gene |
| GeneChildren.GroupsDisjoint | checkGeneChildren.py:17-30 | with unique feature ids, no id lies in two different groups |
| GeneChildren.OneGroupPerGene | checkGeneChildren.py:17-30 | an id found in two groups makes those groups one and the same |
| GeneChildren.WriteFeatureSets | checkGeneChildren.py:42-47 | the table is the header `child_feature\tGeneID`, then, for each wanted signature in list order, one `signature\tid` row per member of its group, each member once; a wanted signature with no group stops the writer and the rows before it remain |
| GeneChildren.BlocksCount | checkGeneChildren.py:44-47 | the number of data rows is the sum of the wanted groups' sizes, a repeated signature counted each time |
| GeneChildren.WrittenRowCount | checkGeneChildren.py:43-47 | a complete table has one header plus that sum of rows |
| Gff.OfType | checkGeneChildren.py:17 | the features of one type, in store order: exactly the store's features of that type |
| Gff.OnSequence | statsLiftoffGFF.py:120 | the features on one sequence, in store order: exactly the store's features with that seqid |
| Gff.OfTypeAppend | statsLiftoffGFF.py:151 | filtering by type distributes over concatenation, so the count of features of a type in a + b is the sum of the counts in a and in b |
| Gff.OfTypeSingle | statsLiftoffGFF.py:151 | a single feature is kept exactly when it has the type; with OfTypeAppend this makes the filter's length the number of features of that type |
| Gff.OnSequenceAppend | statsLiftoffGFF.py:120 | filtering by sequence distributes over concatenation, and the counts add up |
| Gff.OnSequenceSingle | statsLiftoffGFF.py:120 | a single feature is kept exactly when it lies on the sequence |
| Text.Dedup | checkGeneChildren.py:20-22 | the keys of a dict filled by repeated `update`: no repeats, and exactly the elements of the input |
| Text.DedupFirstSeenOrder | checkGeneChildren.py:20-22 | those keys appear in order of first occurrence |
| Text.DedupRepeats | checkGeneChildren.py:21 | updating keys already present leaves the key order unchanged |
| Text.Sort | statsLiftoffGFF.py:123 | `sorted()` of distinct keys: strictly ascending in Python string order, with the same elements |
| LiftoffStats.WithoutPlaceholder | statsLiftoffGFF.py:15-22 | the result holds exactly the input types other than `.`; its order and multiplicity are fixed by WithoutPlaceholderAppend with WithoutPlaceholderKeeps |
| LiftoffStats.WithoutPlaceholderAppend | statsLiftoffGFF.py:16-21 | the filter distributes over concatenation: each entry is kept or dropped on its own, in order |
| LiftoffStats.PlaceholderOnlyRemoved | statsLiftoffGFF.py:16-21 | a type list with `.` once loses exactly that entry, and every other type keeps its place |
| LiftoffStats.WithoutPlaceholderKeeps | statsLiftoffGFF.py:16-21 | a type list without `.` comes back whole |
| LiftoffStats.GetValidFeatures | statsLiftoffGFF.py:15-22 | the store's feature types in first-use order, with `.` removed; the bare `next` does nothing |
| LiftoffStats.MandatoryAttributes | statsLiftoffGFF.py:49-53 | a record exists iff ID, description, sequence_ID and coverage each have a value, and the last two are float literals; a missing ID is the error reported |
| LiftoffStats.CoverageFlags | statsLiftoffGFF.py:55-58 | each flag is 0 or 1, and it is 1 iff its attribute (`partial_mapping`, `low_identity`) is present with a non-empty value list |
| LiftoffStats.CoverageErrorOrder | statsLiftoffGFF.py:50-53 | the lookups fail in source order: a missing or empty ID first, then description, then sequence_ID (missing, empty, or not a float), then coverage; the first failing lookup is the error |
| LiftoffStats.CoverageFields | statsLiftoffGFF.py:50-53 | a record holds the first value of ID, description, sequence_ID and coverage, as given |
| LiftoffStats.TabulatesStep | statsLiftoffGFF.py:50-60 | appending the next feature's record to the six lists keeps them aligned with the features |
| LiftoffStats.ExtractColumns | statsLiftoffGFF.py:42-60 | on success, the six lists have one entry per feature of the type, and entry i is feature i's record; on failure, the error is that of the first failing feature; success iff every feature of the type has a record |
| LiftoffStats.StatsStep | statsLiftoffGFF.py:62-69 | `stats.update` for the next type extends the invariant: keys are the types seen so far, and each value tabulates its type |
| LiftoffStats.StatsComplete | statsLiftoffGFF.py:41-70 | after the loop, the keys are exactly the requested types, each value tabulates its type, and every requested type is covered |
| LiftoffStats.StatsFailed | statsLiftoffGFF.py:49-53 | a failing type after covered ones gives the error of its first failing feature, and not every type is covered |
| LiftoffStats.GetAttributeStats | statsLiftoffGFF.py:40-70 | on success, keys are the requested types and each value lists that type's features in store order; success iff every feature of every requested type has a record; otherwise the error is the first failing feature's in the first failing type |
| LiftoffStats.AttributeHeaderColumns | statsLiftoffGFF.py:87 | the attribute header is the six column names joined by tabs, and splits back into them |
| LiftoffStats.ReportNames | statsLiftoffGFF.py:85 | a report's name is `ft.mapping_stats.tab`; distinct types get distinct files |
| LiftoffStats.AttributeLinesContent | statsLiftoffGFF.py:87-96 | an attribute report is the header, then one line per entry of the lists, in order |
| LiftoffStats.AttributeReportLines | statsLiftoffGFF.py:87-96 | the write loop of one type produces exactly those lines |
| LiftoffStats.ReportsOf | statsLiftoffGFF.py:84-97 | one report per requested type |
| LiftoffStats.ReportsOfContent | statsLiftoffGFF.py:84-97 | report i is the complete report of the i-th requested type |
| LiftoffStats.WriteAttributeReport | statsLiftoffGFF.py:85-96 | a type with lists gets its complete report; a type without one gets a header-only file and the lookup fails |
| LiftoffStats.WriteAttributeStats | statsLiftoffGFF.py:84-97 | success iff every requested type has lists, and then the reports are the complete ones in order; otherwise the earlier reports are complete, the failing type's file holds only the header, and the error names that type |
| LiftoffStats.AttributeLineFields | statsLiftoffGFF.py:96 | a data line splits into the six fields of the header, and its last two fields read back as the flags |
| LiftoffStats.CoverageExample | statsLiftoffGFF.py:49-60 | a gene with ID GENE1, a description, sequence_ID 97.5, coverage 88.2 and no flags gives the record (GENE1, description, 97.5, 88.2, 0, 0) |
| LiftoffStats.Kept | statsLiftoffGFF.py:111-116 | exactly the sequence ids that hold none of the three words |
| LiftoffStats.KeptAppend | statsLiftoffGFF.py:112-116 | the filter distributes over concatenation, so the kept ids stay in store order |
| LiftoffStats.TallyTypes | statsLiftoffGFF.py:118-122 | `ftcount` gets exactly the requested types as keys, in first-occurrence order; each maps to the number of features of that type on the sequence |
| LiftoffStats.CountTypes | statsLiftoffGFF.py:118-123 | a sequence's counts list each requested type once, in ascending order, each with its feature count on that sequence |
| LiftoffStats.GetSeqStats | statsLiftoffGFF.py:108-125 | the entries are the non-denied distinct sequence ids in store order, each with those sorted counts |
| LiftoffStats.DeniedSequencesDropped | statsLiftoffGFF.py:111-116 | no entry has a denied name, every other sequence has an entry, and the match is case-sensitive (`Lifting` is kept) |
| LiftoffStats.WriteSeqStats | statsLiftoffGFF.py:135-143 | the report is the header `Feature` plus the sequence ids, then one row per requested type in list order: the type, then its count on each sequence |
| LiftoffStats.SeqReportCounts | statsLiftoffGFF.py:140-142 | on getSeqStats output, every cell is the number of that type's features on that sequence, and `None` never appears |
| LiftoffStats.SeqReportShape | statsLiftoffGFF.py:137-143 | every row has 1 + number-of-sequences fields, and a non-empty header splits into `Feature` then the sequence ids; with no sequence, the header has two fields and each row has one |
| LiftoffStats.WriteSummaryStats | statsLiftoffGFF.py:148-153 | the summary is the header, then one line per type in input order |
| LiftoffStats.SummaryLineFields | statsLiftoffGFF.py:150-153 | a summary line splits into the type and a count that reads back as the number of features of that type |
| LiftoffStats.SummaryHeaderFields | statsLiftoffGFF.py:149 | the summary header splits into `feature_type` and `count` |

## Left out

- The gffutils database (`create_db`, `features_of_type`, `children`, `region`, `execute`, `count_features_of_type`, `featuretypes`). It is a foreign library, replaced by the in-memory `Gff.Store`. `region(seqid, featuretype)` without coordinates is the store's features of that type on that sequence.
- `featuretypes()` and `select distinct(seqid)` are taken to list values in order of first use in the store. The database does not promise an order.
- Bio.SeqIO parsing of the genome FASTA. `FrameRepair.ContigLengths` takes the parsed records as input.
- Reading and writing files, `csv` quoting and its handling of quote characters, and trailing newlines. Rows are field sequences and reports are sequences of lines.
- The `# Liftoff` provenance scan, the ANSI-coloured messages, `argparse`, the `main` functions (with the `wanted` list and the per-signature printout of checkGeneChildren.py) and `sys.exit`. These are I/O and command-line scaffolding.
- FrameRepair.RepairRow: `int()` on start and end is modelled for optionally signed decimal digits only. The whitespace and `_` separators that Python also accepts are treated as errors.
- LiftoffStats.CoverageOf: `float()` is modelled as a grammar of accepted texts (`IsFloatText`, without surrounding whitespace or `_`). The reports carry the text as given, not the `str(float)` normalisation of the number. Floating point is not modelled.
- GeneChildren.WriteFeatureSets: the order in which a group's ids are written follows Python's set iteration order, which is unspecified. The contract fixes only that each member is written once.
- GeneChildren.GetGeneChildren: the unused `lkup` dict and the values of `fcount` (always 0, never read) are not modelled.
- FrameRepair.ReadLine: text-mode `readline` is modelled by this function, which turns `\n`, `\r\n` and `\r` line endings into `\n`; the rest of Python's file decoding is not modelled.
- FrameRepair.ContigLengths: requires distinct record names, because `SeqIO.to_dict` rejects duplicate names.
- LiftoffStats.WriteAttributeStats: requires every value in the map to have six lists of equal length, as `getAttributeStats` builds them.
- LiftoffStats.WriteSummaryStats: its `ft` parameter is annotated as a dict, but `main` passes it the list from `getValidFeatures`. It is modelled as that sequence of types.
