# CDK core pieces in Dafny

A model of seven pieces of the Chemistry Development Kit (CDK), with
proofs about them:

- **StereoElementFactory** perceives stereo elements from a structure's
  wedge/hatch labels and 2D or 3D coordinates. It finds tetrahedral
  centres, double-bond cis/trans configurations, cumulated (allene-like)
  extended tetrahedral and extended cis/trans elements, and biaryl
  atropisomers.
  - Files: `stereo_bonds.dfy`, `stereo_centers.dfy`, `stereo_chains.dfy`,
    `stereo_rows.dfy`, `stereo_wedges.dfy`, `stereo_geometry.dfy`,
    `stereo_scans.dfy`, `stereo_factory.dfy`.
  - The factory is one class whose `dims` field says 2D or 3D. Atoms and
    bonds are addressed by index. The creators are methods proved equal to
    specification functions, and lemmas prove the symmetries of those
    functions (the same element whichever end a bond, axis or chain is read
    from; mirror images have opposite parity).
- **SimpleCycleBasis** holds the GF(2) linear algebra of the legacy cycle
  basis: the kernel vector by back-substitution, Gauss-Jordan inversion of a
  boolean matrix, the cycle/edge incidence matrix, the edge index map, the
  sorted weight vector, and the elimination step of `minimize`.
  - Files: `gf2.dfy`, `cycle_basis_algebra.dfy`, `cycle_basis.dfy`.
- **FormatStringBuilder** is the printf-like builder of the IO module.
  - Files: `format_text.dfy` (the text each call must produce, as
    functions) and `format_string_builder.dfy` (the class that walks the
    format with an index and appends to a buffer, proved to produce that
    text).
- **VFQueryBuilder** is the append-only query graph of the VF
  substructure matcher (`vf_query_builder.dfy`).
- **NaNResult** is a descriptor result of n missing values and its
  comma-separated text (`nan_result.dfy`).
- **MDLV3000Format** and **PubChemASNFormat** are the format
  sniffers and their shared instances (`chem_formats.dfy`).
- **Shared modules:** `wrappers.dfy` (Option/Result) and `strings.dfy`
  (join/split/contains over `seq<char>`).

Java exceptions are modelled as `Err` results where the code itself checks
for the case and throws. The null dereferences and out-of-range indexes
listed under "Left out" become preconditions. A `null` return becomes `None`. Java `int` wrap-around is written out
where the code can overflow (`skipDigits`).

## Model

| member | source | states |
|---|---|---|
| ChemFormats.MDLV3000Format.Matches | storage/ioformats/src/main/java/org/openscience/cdk/io/formats/MDLV3000Format.java:74-76 | true exactly on line 4 when "v3000" or "V3000" occurs anywhere in the line; every other line number is false |
| ChemFormats.MDLV3000Format.FormatName | storage/ioformats/src/main/java/org/openscience/cdk/io/formats/MDLV3000Format.java:38-40 | the name is "MDL Mol/SDF V3000" |
| ChemFormats.MDLV3000Format.MIMEType | storage/ioformats/src/main/java/org/openscience/cdk/io/formats/MDLV3000Format.java:44-46 | the MIME type is chemical/x-mdl-molfile |
| ChemFormats.MDLV3000Format.PreferredNameExtension | storage/ioformats/src/main/java/org/openscience/cdk/io/formats/MDLV3000Format.java:50-52 | there is no preferred extension (null) |
| ChemFormats.MDLV3000Format.NameExtensions | storage/ioformats/src/main/java/org/openscience/cdk/io/formats/MDLV3000Format.java:56-58 | the list of extensions is empty |
| ChemFormats.MDLV3000Format.ReaderClassName | storage/ioformats/src/main/java/org/openscience/cdk/io/formats/MDLV3000Format.java:62-64 | the reader is org.openscience.cdk.io.MDLV3000Reader |
| ChemFormats.MDLV3000Format.WriterClassName | storage/ioformats/src/main/java/org/openscience/cdk/io/formats/MDLV3000Format.java:68-70 | the writer is org.openscience.cdk.io.MDLV3000Writer |
| ChemFormats.MDLV3000Format.IsXMLBased | storage/ioformats/src/main/java/org/openscience/cdk/io/formats/MDLV3000Format.java:80-82 | the format is not XML based |
| ChemFormats.MDLV3000Format.SupportedDataFeatures | storage/ioformats/src/main/java/org/openscience/cdk/io/formats/MDLV3000Format.java:86-88 | no supported data features |
| ChemFormats.MDLV3000Format.RequiredDataFeatures | storage/ioformats/src/main/java/org/openscience/cdk/io/formats/MDLV3000Format.java:92-94 | no required data features |
| ChemFormats.PubChemASNFormat.Matches | storage/ioformats/src/main/java/org/openscience/cdk/io/formats/PubChemASNFormat.java:92-95 | true exactly on line 1 when the line is "PC-Compound" followed by anything |
| ChemFormats.PubChemASNFormat.FormatName | storage/ioformats/src/main/java/org/openscience/cdk/io/formats/PubChemASNFormat.java:38-40 | the name is "PubChem Compound ASN" |
| ChemFormats.PubChemASNFormat.MIMEType | storage/ioformats/src/main/java/org/openscience/cdk/io/formats/PubChemASNFormat.java:44-46 | there is no MIME type (null) |
| ChemFormats.PubChemASNFormat.PreferredNameExtension | storage/ioformats/src/main/java/org/openscience/cdk/io/formats/PubChemASNFormat.java:50-52 | the preferred extension is the first name extension, "asn" |
| ChemFormats.PubChemASNFormat.NameExtensions | storage/ioformats/src/main/java/org/openscience/cdk/io/formats/PubChemASNFormat.java:56-58 | the only extension is "asn" |
| ChemFormats.PubChemASNFormat.ReaderClassName | storage/ioformats/src/main/java/org/openscience/cdk/io/formats/PubChemASNFormat.java:62-64 | the reader is org.openscience.cdk.io.PCCompoundASNReader |
| ChemFormats.PubChemASNFormat.WriterClassName | storage/ioformats/src/main/java/org/openscience/cdk/io/formats/PubChemASNFormat.java:68-70 | there is no writer (null) |
| ChemFormats.PubChemASNFormat.IsXMLBased | storage/ioformats/src/main/java/org/openscience/cdk/io/formats/PubChemASNFormat.java:74-76 | the format is not XML based |
| ChemFormats.PubChemASNFormat.SupportedDataFeatures | storage/ioformats/src/main/java/org/openscience/cdk/io/formats/PubChemASNFormat.java:80-82 | no supported data features |
| ChemFormats.PubChemASNFormat.RequiredDataFeatures | storage/ioformats/src/main/java/org/openscience/cdk/io/formats/PubChemASNFormat.java:86-88 | no required data features |
| ChemFormats.FormatInstances.constructor | storage/ioformats/src/main/java/org/openscience/cdk/io/formats/MDLV3000Format.java:27 | before the first request no instance exists |
| ChemFormats.FormatInstances.MDLV3000Instance | storage/ioformats/src/main/java/org/openscience/cdk/io/formats/MDLV3000Format.java:31-34 | the first call creates a fresh instance; every later call returns that same object; the other format's instance is untouched |
| ChemFormats.FormatInstances.PubChemASNInstance | storage/ioformats/src/main/java/org/openscience/cdk/io/formats/PubChemASNFormat.java:31-34 | the first call creates a fresh instance; every later call returns that same object |
| ChemFormats.FormatInstances.SameInstanceTwice | storage/ioformats/src/main/java/org/openscience/cdk/io/formats/MDLV3000Format.java:31-34 | two requests in a row yield the identical object, for both formats |
| NaNResults.Create | base/standard/src/main/java/org/openscience/cdk/qsar/result/NaNResult.java:44-47 | a size below one is the IllegalAccessError; any other size gives a result whose length is that size |
| NaNResults.Single | base/standard/src/main/java/org/openscience/cdk/qsar/result/NaNResult.java:35-37 | the no-argument constructor is the sized one with size 1, and its length is 1 |
| NaNResults.ToString | base/standard/src/main/java/org/openscience/cdk/qsar/result/NaNResult.java:55-63 | the text is exactly the size's count of "NaN" tokens joined by commas; the size-1 shortcut and the loop agree |
| NaNResults.JoinStep | base/standard/src/main/java/org/openscience/cdk/qsar/result/NaNResult.java:57-61 | one more pass of the loop adds a comma and a token at the end |
| NaNResults.TextShape | base/standard/src/main/java/org/openscience/cdk/qsar/result/NaNResult.java:55-63 | the text of n values has length 4n-1 and splits at the commas back into exactly n NaN tokens (no leading or trailing comma) |
| NaNResults.TestTexts | base/test-standard/src/test/java/org/openscience/cdk/qsar/result/NaNResultTest.java:49-61 | the texts for one and for three values are "NaN" and "NaN,NaN,NaN" |
| VFQuery.FirstTouchingSpec | legacy/src/main/java/org/openscience/cdk/smsd/algorithm/vflib/builder/VFQueryBuilder.java:135-141 | the first edge of the list that touches a node: none exactly when no edge touches it, otherwise a touching edge with no touching edge before it |
| VFQuery.VFQueryBuilder.constructor | legacy/src/main/java/org/openscience/cdk/smsd/algorithm/vflib/builder/VFQueryBuilder.java:80-84 | the node list, the edge list and the atom map start empty |
| VFQuery.VFQueryBuilder.CountNodes | legacy/src/main/java/org/openscience/cdk/smsd/algorithm/vflib/builder/VFQueryBuilder.java:165-167 | the number of nodes listed |
| VFQuery.VFQueryBuilder.CountEdges | legacy/src/main/java/org/openscience/cdk/smsd/algorithm/vflib/builder/VFQueryBuilder.java:171-173 | the number of edges listed |
| VFQuery.VFQueryBuilder.NodeAt | legacy/src/main/java/org/openscience/cdk/smsd/algorithm/vflib/builder/VFQueryBuilder.java:100-102 | the node at an index in range, otherwise the index-out-of-bounds exception |
| VFQuery.VFQueryBuilder.EdgeAt | legacy/src/main/java/org/openscience/cdk/smsd/algorithm/vflib/builder/VFQueryBuilder.java:122-124 | the edge at an index in range, otherwise the index-out-of-bounds exception |
| VFQuery.VFQueryBuilder.AtomOf | legacy/src/main/java/org/openscience/cdk/smsd/algorithm/vflib/builder/VFQueryBuilder.java:159-161 | the atom of a node of this graph; null exactly for nodes not in it |
| VFQuery.VFQueryBuilder.AddNode | legacy/src/main/java/org/openscience/cdk/smsd/algorithm/vflib/builder/VFQueryBuilder.java:150-155 | appends exactly one fresh node: the count grows by one, the last node is the one returned, its atom is the one given, and the edges are untouched |
| VFQuery.VFQueryBuilder.Connect | legacy/src/main/java/org/openscience/cdk/smsd/algorithm/vflib/builder/VFQueryBuilder.java:182-195 | appends exactly one fresh edge: the count grows by one, the last edge is the one returned, both endpoints record the edge and each other, and nodes and the atom map are untouched |
| VFQuery.VFQueryBuilder.NodeOf | legacy/src/main/java/org/openscience/cdk/smsd/algorithm/vflib/builder/VFQueryBuilder.java:109-118 | a node whose mapped atom equals the atom, or null when no node maps to it |
| VFQuery.VFQueryBuilder.EdgeBetween | legacy/src/main/java/org/openscience/cdk/smsd/algorithm/vflib/builder/VFQueryBuilder.java:128-142 | null for a node with itself; otherwise the first edge of the source that touches the target, and null when none does |
| VFQuery.VFQueryBuilder.ConnectThenLookUp | legacy/src/main/java/org/openscience/cdk/smsd/algorithm/vflib/builder/VFQueryBuilder.java:182-195 | after connecting two distinct nodes, looking up the edge between them finds an edge of the source that touches the target |
| GF2.Add | legacy/src/main/java/org/openscience/cdk/ringsearch/cyclebasis/SimpleCycleBasis.java:327 | the component-wise exclusive or of two rows |
| GF2.DotAppend | legacy/src/main/java/org/openscience/cdk/ringsearch/cyclebasis/SimpleCycleBasis.java:349-353 | the scalar product over GF(2) splits over concatenated parts |
| GF2.DotZeros | legacy/src/main/java/org/openscience/cdk/ringsearch/cyclebasis/SimpleCycleBasis.java:342-345 | a product with the zero vector vanishes |
| GF2.CombineAdd | legacy/src/main/java/org/openscience/cdk/ringsearch/cyclebasis/SimpleCycleBasis.java:393-415 | the sum of selected rows is linear in the selection |
| GF2.CombineUnit | legacy/src/main/java/org/openscience/cdk/ringsearch/cyclebasis/SimpleCycleBasis.java:387-391 | selecting one row of a matrix gives that row (the identity times a matrix) |
| GF2.CombineZeros | legacy/src/main/java/org/openscience/cdk/ringsearch/cyclebasis/SimpleCycleBasis.java:387-391 | selecting no row gives the zero row |
| GF2.DotAdd | legacy/src/main/java/org/openscience/cdk/ringsearch/cyclebasis/SimpleCycleBasis.java:398-401 | the scalar product is additive in its first factor |
| GF2.DotComm | legacy/src/main/java/org/openscience/cdk/ringsearch/cyclebasis/SimpleCycleBasis.java:398-401 | the scalar product is symmetric |
| GF2.DotSingle | legacy/src/main/java/org/openscience/cdk/ringsearch/cyclebasis/SimpleCycleBasis.java:398-401 | with at most one position where both factors are set, the product is that position's entry |
| GF2.DotCombine | legacy/src/main/java/org/openscience/cdk/ringsearch/cyclebasis/SimpleCycleBasis.java:393-415 | (s times rows) times a column x is s times (rows times x) |
| GF2.CombineFlip | legacy/src/main/java/org/openscience/cdk/ringsearch/cyclebasis/SimpleCycleBasis.java:398-401 | toggling the selection of one row adds that row to the product |
| GF2.CombineRowAdd | legacy/src/main/java/org/openscience/cdk/ringsearch/cyclebasis/SimpleCycleBasis.java:398-401 | adding v to row k adds v to the product exactly when row k is selected |
| GF2.CombineShear | legacy/src/main/java/org/openscience/cdk/ringsearch/cyclebasis/SimpleCycleBasis.java:396-402 | adding row j to row k, and selection k to selection j, keeps the product |
| GF2.CombineSwap | legacy/src/main/java/org/openscience/cdk/ringsearch/cyclebasis/SimpleCycleBasis.java:404-411 | exchanging two rows and the two matching selections keeps the product |
| CycleBasis.CreateEdgeIndexMap | legacy/src/main/java/org/openscience/cdk/ringsearch/cyclebasis/SimpleCycleBasis.java:743-749 | every listed edge maps to its last position in the list, and nothing else is mapped |
| CycleBasis.DistinctIndex | legacy/src/main/java/org/openscience/cdk/ringsearch/cyclebasis/SimpleCycleBasis.java:743-749 | with no edge listed twice, the edge at position i maps back to i |
| CycleBasis.SimpleCycleBasis.constructor | legacy/src/main/java/org/openscience/cdk/ringsearch/cyclebasis/SimpleCycleBasis.java:69-75 | the cycles and edges are those given, the basis is not yet minimized, and the index map is built from the edge list |
| CycleBasis.SimpleCycleBasis.EdgeIndex | legacy/src/main/java/org/openscience/cdk/ringsearch/cyclebasis/SimpleCycleBasis.java:751-753 | the column of a listed edge is its last position; unboxing the missing entry of an unlisted edge throws NullPointerException |
| CycleBasis.SimpleCycleBasis.IncidenceMatrix | legacy/src/main/java/org/openscience/cdk/ringsearch/cyclebasis/SimpleCycleBasis.java:214-226 | one fresh row per cycle, one column per edge, entry [i][j] set exactly when cycle i contains edge j |
| CycleBasis.SimpleCycleBasis.CyclesIncidenceMatrix | legacy/src/main/java/org/openscience/cdk/ringsearch/cyclebasis/SimpleCycleBasis.java:210-212 | the incidence matrix of the basis's own cycles |
| CycleBasis.Sort | legacy/src/main/java/org/openscience/cdk/ringsearch/cyclebasis/SimpleCycleBasis.java:365 | the array ends sorted ascending and is a permutation of what it held |
| CycleBasis.SimpleCycleBasis.WeightVector | legacy/src/main/java/org/openscience/cdk/ringsearch/cyclebasis/SimpleCycleBasis.java:358-368 | the weights of the cycles, one per cycle (a permutation of them) in ascending order |
| CycleBasis.ReduceRowClears | legacy/src/main/java/org/openscience/cdk/ringsearch/cyclebasis/SimpleCycleBasis.java:324-330 | against earlier rows in echelon form, the elimination clears every column before the row's own index |
| CycleBasis.ReduceRowSelection | legacy/src/main/java/org/openscience/cdk/ringsearch/cyclebasis/SimpleCycleBasis.java:324-330 | the reduced row is the inserted row plus a GF(2) combination of the earlier rows |
| CycleBasis.AddInto | legacy/src/main/java/org/openscience/cdk/ringsearch/cyclebasis/SimpleCycleBasis.java:326-328 | the target row becomes its exclusive or with the source row |
| CycleBasis.SimpleCycleBasis.InsertCycle | legacy/src/main/java/org/openscience/cdk/ringsearch/cyclebasis/SimpleCycleBasis.java:316-330 | the shortest cycle replaces cycle i, row i of the matrix becomes its incidence row reduced against rows 0..i-1 in order, and no other row or cycle changes |
| CycleBasisAlgebra.ConstructKernelVector | legacy/src/main/java/org/openscience/cdk/ringsearch/cyclebasis/SimpleCycleBasis.java:340-356 | u[i] is set and every later entry clear; each earlier u[j] is the GF(2) product of row j right of the diagonal with u, so a row with its diagonal set is orthogonal to u; the matrix is only read |
| CycleBasisAlgebra.BackSubstitute | legacy/src/main/java/org/openscience/cdk/ringsearch/cyclebasis/SimpleCycleBasis.java:349-354 | the loop solves entries i-1 down to 0 in turn, leaving u[i] and the later entries as they were |
| CycleBasisAlgebra.SolveEntry | legacy/src/main/java/org/openscience/cdk/ringsearch/cyclebasis/SimpleCycleBasis.java:350-353 | one entry is cleared then toggled for every later column where both the row and u are set, i.e. set to that product |
| CycleBasisAlgebra.KernelRow | legacy/src/main/java/org/openscience/cdk/ringsearch/cyclebasis/SimpleCycleBasis.java:347-355 | a row whose diagonal entry is set has zero product with the kernel vector from the diagonal on |
| CycleBasisAlgebra.CopyWithIdentity | legacy/src/main/java/org/openscience/cdk/ringsearch/cyclebasis/SimpleCycleBasis.java:380-391 | a is a fresh copy of m and r a fresh identity, every row a distinct array |
| CycleBasisAlgebra.AddRows | legacy/src/main/java/org/openscience/cdk/ringsearch/cyclebasis/SimpleCycleBasis.java:398-401 | row k of a and of r get row j added, entry by entry |
| CycleBasisAlgebra.EliminateRow | legacy/src/main/java/org/openscience/cdk/ringsearch/cyclebasis/SimpleCycleBasis.java:396-402 | one row operation, applied to a and r alike |
| CycleBasisAlgebra.TracksStep | legacy/src/main/java/org/openscience/cdk/ringsearch/cyclebasis/SimpleCycleBasis.java:396-402 | adding the pivot row to another keeps r times m equal to a, keeps the unit columns found so far, keeps m recoverable from a and the columns without a pivot clear from the diagonal down, and clears that row's entry in the pivot column |
| CycleBasisAlgebra.SwapStep | legacy/src/main/java/org/openscience/cdk/ringsearch/cyclebasis/SimpleCycleBasis.java:404-411 | swapping two rows in both matrices keeps r times m equal to a and m recoverable from a, makes the pivot column a unit column, and keeps the columns without a pivot clear from the diagonal down |
| CycleBasisAlgebra.RecoverShear | legacy/src/main/java/org/openscience/cdk/ringsearch/cyclebasis/SimpleCycleBasis.java:396-402 | adding one row of a to another loses nothing: m is still some combination of the rows of a |
| CycleBasisAlgebra.RecoverSwap | legacy/src/main/java/org/openscience/cdk/ringsearch/cyclebasis/SimpleCycleBasis.java:404-411 | exchanging two rows of a loses nothing: m is still some combination of the rows of a |
| CycleBasisAlgebra.IdentityRecovers | legacy/src/main/java/org/openscience/cdk/ringsearch/cyclebasis/SimpleCycleBasis.java:380-391 | at the start, m is recovered from its copy a by the identity |
| CycleBasisAlgebra.SwapMirror | legacy/src/main/java/org/openscience/cdk/ringsearch/cyclebasis/SimpleCycleBasis.java:404-411 | exchanging two row references exchanges the rows held |
| CycleBasisAlgebra.ClearColumn | legacy/src/main/java/org/openscience/cdk/ringsearch/cyclebasis/SimpleCycleBasis.java:395-403 | every other row with a set entry in the pivot column gets the pivot row added, so the pivot column becomes a unit column, in lockstep on a and r; m stays recoverable from a and earlier columns without a pivot stay clear from the diagonal down |
| CycleBasisAlgebra.ClearStep | legacy/src/main/java/org/openscience/cdk/ringsearch/cyclebasis/SimpleCycleBasis.java:397-402 | one pass over row k: only row k changes, its pivot-column entry ends clear, and the invariants of the elimination hold |
| CycleBasisAlgebra.PivotOn | legacy/src/main/java/org/openscience/cdk/ringsearch/cyclebasis/SimpleCycleBasis.java:395-412 | clearing the column and then swapping rows i and j by reference adds column i to the unit columns, keeping m recoverable from a |
| CycleBasisAlgebra.ProcessColumn | legacy/src/main/java/org/openscience/cdk/ringsearch/cyclebasis/SimpleCycleBasis.java:394-414 | the first row from i on with a set entry in column i becomes the pivot; with none, nothing changes and column i is clear from row i down |
| CycleBasisAlgebra.Reduce | legacy/src/main/java/org/openscience/cdk/ringsearch/cyclebasis/SimpleCycleBasis.java:393-415 | column by column, r times m stays equal to a and m recoverable from a; every column where a pivot was found is a unit column, every other is clear from the diagonal down |
| CycleBasisAlgebra.FullRank | legacy/src/main/java/org/openscience/cdk/ringsearch/cyclebasis/SimpleCycleBasis.java:393-417 | when every column had a pivot, a is the identity, so r times m is the identity |
| CycleBasisAlgebra.IdentityTracks | legacy/src/main/java/org/openscience/cdk/ringsearch/cyclebasis/SimpleCycleBasis.java:387-391 | at the start, the identity times m is the copy a |
| CycleBasisAlgebra.Eliminate | legacy/src/main/java/org/openscience/cdk/ringsearch/cyclebasis/SimpleCycleBasis.java:380-415 | copies m and an identity, then reduces them: r times the n by n block of m is the reduced matrix, from which m is recoverable |
| CycleBasisAlgebra.Assemble | legacy/src/main/java/org/openscience/cdk/ringsearch/cyclebasis/SimpleCycleBasis.java:417 | the returned rows times m give the reduced matrix; every column had a pivot exactly when m is not singular, and then the rows are the inverse of m |
| CycleBasisAlgebra.RankTest | legacy/src/main/java/org/openscience/cdk/ringsearch/cyclebasis/SimpleCycleBasis.java:393-415 | after the elimination, every column has a pivot exactly when m sends no nonzero vector to zero |
| CycleBasisAlgebra.ReducedKernel | legacy/src/main/java/org/openscience/cdk/ringsearch/cyclebasis/SimpleCycleBasis.java:393-415 | a reduced matrix whose first column c without a pivot follows pivots only sends a vector with entry c set to zero |
| CycleBasisAlgebra.LeftInverseNotSingular | legacy/src/main/java/org/openscience/cdk/ringsearch/cyclebasis/SimpleCycleBasis.java:417 | a matrix with a left inverse sends no nonzero vector to zero |
| CycleBasisAlgebra.InverseBinaryMatrix | legacy/src/main/java/org/openscience/cdk/ringsearch/cyclebasis/SimpleCycleBasis.java:378-418 | an n by n result whose rows times m give a matrix with a unit column at every pivot found and every other column clear from the diagonal down; every column finds a pivot exactly when m is invertible (not singular), and then the result is the inverse of m; m is not modified |
| CycleBasisAlgebra.Swapped | legacy/src/main/java/org/openscience/cdk/ringsearch/cyclebasis/SimpleCycleBasis.java:404-411 | where a position lands after two positions are exchanged |
| FormatText.Wrap32 | storage/io/src/main/java/org/openscience/cdk/io/FormatStringBuilder.java:299 | reduction to a Java int, the identity on values in the int range |
| FormatText.Repeat | storage/io/src/main/java/org/openscience/cdk/io/FormatStringBuilder.java:319-323 | n copies of one character, none for n below 1 |
| FormatText.FlagOf | storage/io/src/main/java/org/openscience/cdk/io/FormatStringBuilder.java:179-201 | exactly the characters - + space # 0 and ' are flags |
| FormatText.SkipEnd | storage/io/src/main/java/org/openscience/cdk/io/FormatStringBuilder.java:292-305 | the end of the maximal run of ASCII digits from an index |
| FormatText.SkipPast | storage/io/src/main/java/org/openscience/cdk/io/FormatStringBuilder.java:292-305 | from the start of a maximal digit run, the scan ends at its end |
| FormatText.ScanFlags | storage/io/src/main/java/org/openscience/cdk/io/FormatStringBuilder.java:174-202 | the flags loop stops at the first non-flag after the '%', or cuts off at the last character |
| FormatText.FlagsUpTo | storage/io/src/main/java/org/openscience/cdk/io/FormatStringBuilder.java:174-202 | flags that run up to a non-flag stop there; flags up to the end of the format cut off |
| FormatText.DirectiveAt | storage/io/src/main/java/org/openscience/cdk/io/FormatStringBuilder.java:171-271 | a conversion or literal text ends strictly after the '%', and a failure lies within the format |
| FormatText.AfterWidth | storage/io/src/main/java/org/openscience/cdk/io/FormatStringBuilder.java:210-223 | the optional precision, then the conversion character |
| FormatText.Convert | storage/io/src/main/java/org/openscience/cdk/io/FormatStringBuilder.java:223-271 | failure exactly when the format ends before the conversion character; "%%" is the text "%", an unknown character c is "%c", and a conversion keeps the width and precision read, in base 8, 10 or 16 |
| FormatText.Scan | storage/io/src/main/java/org/openscience/cdk/io/FormatStringBuilder.java:160-275 | the scan from an index ends within the format, at the end of it when no conversion is left |
| FormatText.PlainTextCopied | storage/io/src/main/java/org/openscience/cdk/io/FormatStringBuilder.java:164-169 | text without '%' is copied verbatim and the scan runs to the end with no conversion |
| FormatText.DoublePercent | storage/io/src/main/java/org/openscience/cdk/io/FormatStringBuilder.java:232-234 | "%%" copies a single '%' and scanning continues after it |
| FormatText.UnknownConversion | storage/io/src/main/java/org/openscience/cdk/io/FormatStringBuilder.java:268-270 | an unknown conversion character is copied with its '%', and scanning continues |
| FormatText.Unterminated | storage/io/src/main/java/org/openscience/cdk/io/FormatStringBuilder.java:177-223 | a directive ending after the '%', the flags, the width, the '.' or the precision is malformed, and nothing is copied |
| FormatText.IntValueWraps | storage/io/src/main/java/org/openscience/cdk/io/FormatStringBuilder.java:292-305 | the value skipDigits accumulates is the decimal value of the digits reduced to a Java int |
| FormatText.SkipDigitsExact | storage/io/src/main/java/org/openscience/cdk/io/FormatStringBuilder.java:292-305 | widths and precisions of up to nine digits are read exactly |
| FormatText.DecimalBound | storage/io/src/main/java/org/openscience/cdk/io/FormatStringBuilder.java:292-305 | a decimal number of k digits is below 10^k |
| FormatText.DigitChar | storage/io/src/main/java/org/openscience/cdk/io/FormatStringBuilder.java:408-422 | the digit character for a value has that value, and is an ASCII digit exactly below 10 |
| FormatText.Digits | storage/io/src/main/java/org/openscience/cdk/io/FormatStringBuilder.java:408-422 | the base 8, 10 or 16 digits of a number, at least one |
| FormatText.DigitsRoundTrip | storage/io/src/main/java/org/openscience/cdk/io/FormatStringBuilder.java:408-422 | the digits read back in their base give the number |
| FormatText.DecimalDigitsAreDigits | storage/io/src/main/java/org/openscience/cdk/io/FormatStringBuilder.java:422 | decimal digits are ASCII digits |
| FormatText.ToUpper | storage/io/src/main/java/org/openscience/cdk/io/FormatStringBuilder.java:426-429 | upper-casing keeps the length |
| FormatText.UpperKeepsValue | storage/io/src/main/java/org/openscience/cdk/io/FormatStringBuilder.java:426-429 | upper-casing hexadecimal digits does not change their value |
| FormatText.UpperDigits | storage/io/src/main/java/org/openscience/cdk/io/FormatStringBuilder.java:426-429 | upper-casing leaves decimal digits and signs alone |
| FormatText.WrapShift | storage/io/src/main/java/org/openscience/cdk/io/FormatStringBuilder.java:299 | a shift by a multiple of 2^32 does not change the wrapped value |
| FormatText.CharTextShape | storage/io/src/main/java/org/openscience/cdk/io/FormatStringBuilder.java:312-326 | format(char) writes max(1, fieldWidth) characters: the character at the right edge, or at the left with '-', spaces elsewhere |
| FormatText.Kept | storage/io/src/main/java/org/openscience/cdk/io/FormatStringBuilder.java:481-482 | all of the string, or at most the precision when one is given |
| FormatText.StringTextShape | storage/io/src/main/java/org/openscience/cdk/io/FormatStringBuilder.java:473-494 | format(String) writes max(len, fieldWidth) characters: the first len characters of the string, with space padding on the left, or on the right with '-' |
| FormatText.Unsigned64 | storage/io/src/main/java/org/openscience/cdk/io/FormatStringBuilder.java:408-415 | the unsigned 64-bit reading of a long, the long itself when non-negative |
| FormatText.AbsText | storage/io/src/main/java/org/openscience/cdk/io/FormatStringBuilder.java:422 | the ASCII digits of the magnitude of a long, for every long |
| FormatText.DecimalSign | storage/io/src/main/java/org/openscience/cdk/io/FormatStringBuilder.java:433-458 | base 10 writes '-' exactly for negatives, '+' exactly for non-negatives with the '+' flag, nothing otherwise |
| FormatText.DecimalLayout | storage/io/src/main/java/org/openscience/cdk/io/FormatStringBuilder.java:397-467 | base 10: the sign, then the digits of the magnitude; space padding before the sign, '0' padding between sign and digits, spaces after the digits with '-'; the width is max(fieldWidth, sign plus digits) |
| FormatText.LeadingZeros | storage/io/src/main/java/org/openscience/cdk/io/FormatStringBuilder.java:438-449 | '0' padding does not change the decimal value written |
| FormatText.RadixDigits | storage/io/src/main/java/org/openscience/cdk/io/FormatStringBuilder.java:406-420 | octal and hexadecimal write no sign, and their digits, in either case, denote the long modulo 2^64 |
| FormatText.RadixPrefix | storage/io/src/main/java/org/openscience/cdk/io/FormatStringBuilder.java:406-429 | the '#' prefix is "0" in octal and "0x" in hexadecimal, "0X" with 'X', none in base 10 |
| FormatText.LongWidth | storage/io/src/main/java/org/openscience/cdk/io/FormatStringBuilder.java:426-465 | the width written: max(fieldWidth, content), except that in octal and hexadecimal a negative number or '+' takes one column although no sign is written |
| FormatText.SignedDigitsTwice | storage/io/src/main/java/org/openscience/cdk/io/FormatStringBuilder.java:422-458 | a negative number whose decimal text already carries a '-' is written with two |
| FormatText.MinValueTwoSigns | storage/io/src/main/java/org/openscience/cdk/io/FormatStringBuilder.java:422-458 | as written, Long.MIN_VALUE in base 10 comes out as "--9223372036854775808" (see Findings) |
| FormatStringBuilders.PrependTwice | storage/io/src/main/java/org/openscience/cdk/io/FormatStringBuilder.java:164-169 | copied text accumulates in order |
| FormatStringBuilders.ScanAt | storage/io/src/main/java/org/openscience/cdk/io/FormatStringBuilder.java:164-171 | a literal character is copied and the scan goes on; a '%' starts a directive |
| FormatStringBuilders.FormatStringBuilder.constructor | storage/io/src/main/java/org/openscience/cdk/io/FormatStringBuilder.java:127-129 | the given format, an empty buffer, index 0 |
| FormatStringBuilders.FormatStringBuilder.ResetFormat | storage/io/src/main/java/org/openscience/cdk/io/FormatStringBuilder.java:136-140 | a new format, an empty buffer, index 0 |
| FormatStringBuilders.FormatStringBuilder.Reset | storage/io/src/main/java/org/openscience/cdk/io/FormatStringBuilder.java:147-151 | the same format, an empty buffer, index 0 |
| FormatStringBuilders.FormatStringBuilder.SkipDigits | storage/io/src/main/java/org/openscience/cdk/io/FormatStringBuilder.java:292-305 | the index moves to the end of the digit run and the value is the Java int of those digits |
| FormatStringBuilders.FormatStringBuilder.ReadFlags | storage/io/src/main/java/org/openscience/cdk/io/FormatStringBuilder.java:174-202 | the flags loop as ScanFlags describes it, leaving the index at the first non-flag |
| FormatStringBuilders.FormatStringBuilder.ReadConversion | storage/io/src/main/java/org/openscience/cdk/io/FormatStringBuilder.java:223-271 | reads the conversion as Convert describes; "%%" and unknown conversions are copied to the buffer |
| FormatStringBuilders.FormatStringBuilder.ReadPrecision | storage/io/src/main/java/org/openscience/cdk/io/FormatStringBuilder.java:210-221 | the optional precision (a negative value becomes 0) and the conversion, as AfterWidth describes |
| FormatStringBuilders.FormatStringBuilder.NextDirective | storage/io/src/main/java/org/openscience/cdk/io/FormatStringBuilder.java:171-271 | one whole directive, as DirectiveAt describes |
| FormatStringBuilders.FormatStringBuilder.Step | storage/io/src/main/java/org/openscience/cdk/io/FormatStringBuilder.java:164-271 | one pass of the getFormat loop consumes a literal or a directive and appends what Scan copies for it |
| FormatStringBuilders.FormatStringBuilder.GetFormat | storage/io/src/main/java/org/openscience/cdk/io/FormatStringBuilder.java:160-275 | the buffer gains exactly the text Scan copies, the index moves to where Scan stops, and the outcome is Scan's conversion, malformed format, or null at the end |
| FormatStringBuilders.FormatStringBuilder.PadWhileShorter | storage/io/src/main/java/org/openscience/cdk/io/FormatStringBuilder.java:367-374 | the padding loop appends width-len pad characters and leaves the width decremented past the length |
| FormatStringBuilders.FormatStringBuilder.PadWhilePositive | storage/io/src/main/java/org/openscience/cdk/io/FormatStringBuilder.java:319-323 | the pre-decrement loop appends width-1 spaces |
| FormatStringBuilders.FormatStringBuilder.AppendChars | storage/io/src/main/java/org/openscience/cdk/io/FormatStringBuilder.java:487-488 | the first len characters are appended |
| FormatStringBuilders.FormatStringBuilder.FormatChar | storage/io/src/main/java/org/openscience/cdk/io/FormatStringBuilder.java:312-326 | copies the literal text; then null format, malformed format or a non-char conversion throw, otherwise CharText is appended |
| FormatStringBuilders.FormatStringBuilder.RenderChar | storage/io/src/main/java/org/openscience/cdk/io/FormatStringBuilder.java:319-323 | appends CharText for the directive |
| FormatStringBuilders.FormatStringBuilder.FormatString | storage/io/src/main/java/org/openscience/cdk/io/FormatStringBuilder.java:473-494 | null becomes "<NULL>"; copies the literal text; a non-string conversion throws, otherwise StringText is appended |
| FormatStringBuilders.FormatStringBuilder.RenderString | storage/io/src/main/java/org/openscience/cdk/io/FormatStringBuilder.java:481-491 | appends StringText for the directive |
| FormatStringBuilders.FormatStringBuilder.AppendSign | storage/io/src/main/java/org/openscience/cdk/io/FormatStringBuilder.java:439-443 | appends the sign, only in base 10 |
| FormatStringBuilders.FormatStringBuilder.FormatLong | storage/io/src/main/java/org/openscience/cdk/io/FormatStringBuilder.java:391-468 | copies the literal text; a non-decimal conversion throws, otherwise LongText is appended (the corrected single-sign text, see Findings) |
| FormatStringBuilders.FormatStringBuilder.RenderLong | storage/io/src/main/java/org/openscience/cdk/io/FormatStringBuilder.java:397-465 | appends LongText for the directive |
| FormatStringBuilders.FormatStringBuilder.NumberText | storage/io/src/main/java/org/openscience/cdk/io/FormatStringBuilder.java:397-431 | the digits and the '#' prefix, upper-cased with 'X', and the width left after the prefix |
| FormatStringBuilders.FormatStringBuilder.AppendSignedPrefix | storage/io/src/main/java/org/openscience/cdk/io/FormatStringBuilder.java:433-459 | the sign and prefix, with space padding before them, '0' padding after them, or no padding with '-' |
| FormatStringBuilders.FormatStringBuilder.FormatInt | storage/io/src/main/java/org/openscience/cdk/io/FormatStringBuilder.java:382-386 | the same as format(long) of the same value |
| FormatStringBuilders.FormatStringBuilder.ToString | storage/io/src/main/java/org/openscience/cdk/io/FormatStringBuilder.java:503-511 | the buffer followed by the unread rest of the format; afterwards the buffer is empty and the index 0 |
| StereoBonds.ElevationOf | base/standard/src/main/java/org/openscience/cdk/stereo/StereoElementFactory.java:1180-1192 | +1 exactly for UP at the begin atom or UP_INVERTED at the end atom, -1 exactly for DOWN at the begin or DOWN_INVERTED at the end, 0 otherwise |
| StereoBonds.ElevationReversed | base/standard/src/main/java/org/openscience/cdk/stereo/StereoElementFactory.java:1180-1192 | a bond stored the other way round with its inverted label toggled has the same elevation |
| StereoBonds.IsUnspecified | base/standard/src/main/java/org/openscience/cdk/stereo/StereoElementFactory.java:1046-1055 | true exactly for UP_OR_DOWN, UP_OR_DOWN_INVERTED and E_OR_Z, and such bonds raise no elevation |
| StereoBonds.IsWedged | base/standard/src/main/java/org/openscience/cdk/stereo/StereoElementFactory.java:763-773 | true exactly for the four wedge/hatch labels: never unspecified, and raising an elevation at one of its ends |
| StereoBonds.IsOkay | base/standard/src/main/java/org/openscience/cdk/stereo/StereoElementFactory.java:655-657 | two elevations are compatible exactly when they do not point opposite ways |
| StereoBonds.GetShared | base/standard/src/main/java/org/openscience/cdk/stereo/StereoElementFactory.java:180-186 | an atom both bonds touch, the first bond's begin atom when possible, null exactly when they are disjoint |
| StereoBonds.SharedSymmetric | base/standard/src/main/java/org/openscience/cdk/stereo/StereoElementFactory.java:180-186 | whether two bonds share an atom does not depend on the order asked |
| StereoBonds.Other | base/standard/src/main/java/org/openscience/cdk/stereo/StereoElementFactory.java:199 | the far atom of a bond, different from the given one on a bond with distinct ends |
| StereoBonds.IncidentUpTo | base/standard/src/main/java/org/openscience/cdk/stereo/StereoElementFactory.java:168 | the bonds at an atom, exactly those touching it, in container order |
| StereoBonds.OtherDoublesUpTo | base/standard/src/main/java/org/openscience/cdk/stereo/StereoElementFactory.java:168-172 | the double bonds at an atom other than the excluded one, in container order |
| StereoBonds.UniqueOtherDouble | base/standard/src/main/java/org/openscience/cdk/stereo/StereoElementFactory.java:166-178 | the other double bond when it is the only one; none when there are none or several |
| StereoBonds.Without | base/standard/src/main/java/org/openscience/cdk/stereo/StereoElementFactory.java:1007-1008 | List.remove: one occurrence fewer, the rest in order |
| StereoBonds.FirstOtherBond | base/standard/src/main/java/org/openscience/cdk/stereo/StereoElementFactory.java:1007-1021 | the lowest-numbered bond at an atom other than the excluded one |
| StereoChains.StartWalk | base/standard/src/main/java/org/openscience/cdk/stereo/StereoElementFactory.java:189-193 | the walk starts from the end bond with the unique other double bond at its begin atom, else at its end atom |
| StereoChains.StepWalk | base/standard/src/main/java/org/openscience/cdk/stereo/StereoElementFactory.java:197-199 | one pass collects the pending bond and looks past its far atom, keeping the walk linked |
| StereoChains.AfterSteps | base/standard/src/main/java/org/openscience/cdk/stereo/StereoElementFactory.java:196-200 | the loop as written, run for a number of passes, stays linked |
| StereoChains.AfterStepsNext | base/standard/src/main/java/org/openscience/cdk/stereo/StereoElementFactory.java:196-200 | one more pass is one more step at the end |
| StereoChains.ChainFrom | base/standard/src/main/java/org/openscience/cdk/stereo/StereoElementFactory.java:196-201 | from a walk, a chain collects at least the bonds gathered so far, and one more while a bond is pending; no chain once the pending bond was already collected |
| StereoChains.ChainFromExtends | base/standard/src/main/java/org/openscience/cdk/stereo/StereoElementFactory.java:196-201 | a chain reached from a walk begins with the bonds that walk had collected |
| StereoChains.ChainFromStops | base/standard/src/main/java/org/openscience/cdk/stereo/StereoElementFactory.java:196-201 | the loop as written, run once per bond added, ends on the chain with nothing pending |
| StereoChains.CumulatedDbs | base/standard/src/main/java/org/openscience/cdk/stereo/StereoElementFactory.java:188-202 | no chain when neither atom of the end bond has another double bond, otherwise a chain of at least two bonds |
| StereoChains.CumulatedDbsStops | base/standard/src/main/java/org/openscience/cdk/stereo/StereoElementFactory.java:188-202 | a chain begins with the end bond, and the loop as written, run once per bond added, stops on it |
| StereoChains.ChainExtended | base/standard/src/main/java/org/openscience/cdk/stereo/StereoElementFactory.java:197-198 | a new double bond sharing an atom with the last one extends a cumulated chain |
| StereoChains.BeginAtom | base/standard/src/main/java/org/openscience/cdk/stereo/StereoElementFactory.java:993 | the atom of the first bond not shared with the second |
| StereoChains.EndAtom | base/standard/src/main/java/org/openscience/cdk/stereo/StereoElementFactory.java:994 | the atom of the last bond not shared with the one before |
| StereoChains.Reverse | base/standard/src/main/java/org/openscience/cdk/stereo/StereoElementFactory.java:993-994 | the chain read backwards |
| StereoChains.ChainReversed | base/standard/src/main/java/org/openscience/cdk/stereo/StereoElementFactory.java:993-994 | a chain read from its other end is a chain with begin and end atoms exchanged and, for an odd length, the same middle bond |
| StereoChains.RingStep | base/standard/src/main/java/org/openscience/cdk/stereo/StereoElementFactory.java:196-200 | around a ring of three double bonds the walk only ever moves to the next bond |
| StereoChains.RingWalk | base/standard/src/main/java/org/openscience/cdk/stereo/StereoElementFactory.java:196-200 | on that ring the walk grows by one bond per pass and always has a pending bond |
| StereoChains.CumulatedRingNeverEnds | base/standard/src/main/java/org/openscience/cdk/stereo/StereoElementFactory.java:196-200 | as written, the loop started on that ring never stops (see Findings) |
| StereoChains.Dispatch | base/standard/src/main/java/org/openscience/cdk/stereo/StereoElementFactory.java:240-254 | a chain is skipped exactly when its first bond's index exceeds its last; an even chain makes the atom shared by the two middle bonds an extended tetrahedral centre; an odd one an extended cis/trans |
| StereoRows.MovedToBackPermutes | base/standard/src/main/java/org/openscience/cdk/stereo/StereoElementFactory.java:1161-1169 | moving an entry to the back permutes the row |
| StereoRows.MovedToBackAt | base/standard/src/main/java/org/openscience/cdk/stereo/StereoElementFactory.java:1161-1169 | with the entry first found at k, the others keep their order and it ends last |
| StereoRows.MovedToBackAbsent | base/standard/src/main/java/org/openscience/cdk/stereo/StereoElementFactory.java:1161-1169 | without the entry the row is unchanged |
| StereoRows.FirstIndex | base/standard/src/main/java/org/openscience/cdk/stereo/StereoElementFactory.java:1162-1163 | the first position of a value |
| StereoRows.MovedToBackLast | base/standard/src/main/java/org/openscience/cdk/stereo/StereoElementFactory.java:1161-1169 | the entry ends at the last index |
| StereoRows.MovedToBackOnce | base/standard/src/main/java/org/openscience/cdk/stereo/StereoElementFactory.java:884-897 | in a row listing the partner once, the partner ends last and nowhere else, and the first other entry comes to the front |
| StereoRows.CountedTwice | base/standard/src/main/java/org/openscience/cdk/stereo/StereoElementFactory.java:1161-1169 | a value at two positions is counted twice |
| StereoRows.ShiftDown | base/standard/src/main/java/org/openscience/cdk/stereo/StereoElementFactory.java:1164 | System.arraycopy shifts the tail after i down by one and keeps the rest |
| StereoRows.MoveToBack | base/standard/src/main/java/org/openscience/cdk/stereo/StereoElementFactory.java:1161-1169 | the array ends equal to the row with its first v moved to the back |
| StereoWedges.Elevations | base/standard/src/main/java/org/openscience/cdk/stereo/StereoElementFactory.java:669-736 | the elevation of each bond from the focus, in order |
| StereoWedges.FlipAdd | base/standard/src/main/java/org/openscience/cdk/stereo/StereoElementFactory.java:734-736 | negating once per position: the sign of a distance is the product of the signs of its parts |
| StereoWedges.VerifyWedgePattern | base/standard/src/main/java/org/openscience/cdk/stereo/StereoElementFactory.java:661-741 | accepts exactly when the drawing is consistent: with three neighbours, wedges mixed around a reflex angle, alike otherwise, and no single wedge opposite two co-linear bonds; with four, any two wedges alternate with their distance in polar order |
| StereoWedges.WedgesMixed | base/standard/src/main/java/org/openscience/cdk/stereo/StereoElementFactory.java:669-680 | the reflex-angle loop accepts exactly when no two adjacent wedged neighbours point the same way |
| StereoWedges.WedgesAlike | base/standard/src/main/java/org/openscience/cdk/stereo/StereoElementFactory.java:683-692 | the non-reflex loop accepts exactly when no two adjacent wedged neighbours point opposite ways |
| StereoWedges.WedgesAlternate | base/standard/src/main/java/org/openscience/cdk/stereo/StereoElementFactory.java:724-739 | the four-neighbour loop accepts exactly when any two wedges at sorted positions i < j satisfy e[j] = e[i]·(-1)^(j-i) |
| StereoWedges.AlternatesExtended | base/standard/src/main/java/org/openscience/cdk/stereo/StereoElementFactory.java:724-739 | a wedge that alternates with the last wedge before it alternates with all of them |
| StereoWedges.OrthoGateCases | base/standard/src/main/java/org/openscience/cdk/stereo/StereoElementFactory.java:793-803 | the degree-sum gate admits exactly the sums 8/9, 9/8 and 9/9 |
| StereoGeometry.DetExpansion | base/standard/src/main/java/org/openscience/cdk/stereo/StereoElementFactory.java:1150-1152 | det is the 3x3 determinant with a column of ones, by cofactor expansion |
| StereoGeometry.DetSymmetries | base/standard/src/main/java/org/openscience/cdk/stereo/StereoElementFactory.java:1150-1152 | exchanging two points negates det; rotating them keeps it |
| StereoGeometry.Negated | base/standard/src/main/java/org/openscience/cdk/stereo/StereoElementFactory.java:1134-1147 | every elevation negated |
| StereoGeometry.ParitySumNegated | base/standard/src/main/java/org/openscience/cdk/stereo/StereoElementFactory.java:1134-1147 | negating all four elevations negates the weighted sum |
| StereoGeometry.ParitySumSwap | base/standard/src/main/java/org/openscience/cdk/stereo/StereoElementFactory.java:1134-1147 | exchanging the first two neighbours, with their elevations, negates the sum |
| StereoGeometry.ParitySumPairSwap | base/standard/src/main/java/org/openscience/cdk/stereo/StereoElementFactory.java:1134-1147 | exchanging the first pair with the second pair keeps the sum |
| StereoGeometry.ParitySumUniform | base/standard/src/main/java/org/openscience/cdk/stereo/StereoElementFactory.java:1134-1147 | four equal elevations give sum 0 |
| StereoGeometry.SideParity | base/standard/src/main/java/org/openscience/cdk/stereo/StereoElementFactory.java:1064-1080 | 0 exactly when a point is missing or the absolute determinant is below 0.1, +1 exactly for a determinant of at least 0.1, else -1 |
| StereoGeometry.SideParitySwap | base/standard/src/main/java/org/openscience/cdk/stereo/StereoElementFactory.java:1064-1080 | exchanging the two substituents of one end flips its parity |
| StereoGeometry.OpposedSymmetric | base/standard/src/main/java/org/openscience/cdk/stereo/StereoElementFactory.java:1028-1035 | pointing away from each other is symmetric |
| StereoGeometry.MidpointAsWrittenHeight | base/standard/src/main/java/org/openscience/cdk/stereo/StereoElementFactory.java:869-870 | as written, the centre sits at the second end's height |
| StereoGeometry.MidpointAsWrittenSkewed | base/standard/src/main/java/org/openscience/cdk/stereo/StereoElementFactory.java:869-870 | as written, when the ends differ in height the centre depends on the order of the ends and is not the midpoint (see Findings) |
| StereoGeometry.MidpointCentred | base/standard/src/main/java/org/openscience/cdk/stereo/StereoElementFactory.java:869-870 | the corrected centre does not depend on the order of the ends and is equidistant from both, at half their distance |
| StereoGeometry.CrossPerpendicular | base/standard/src/main/java/org/openscience/cdk/stereo/StereoElementFactory.java:1587-1590 | the cross product is perpendicular to both factors |
| StereoGeometry.BondParity3D | base/standard/src/main/java/org/openscience/cdk/stereo/StereoElementFactory.java:1497-1519 | the 3D double-bond parity is in {-1, 0, 1} |
| StereoGeometry.TetrahedralParity3D | base/standard/src/main/java/org/openscience/cdk/stereo/StereoElementFactory.java:1527-1556 | the 3D tetrahedral parity is in {-1, 0, 1} |
| StereoGeometry.Dot3Symmetric | base/standard/src/main/java/org/openscience/cdk/stereo/StereoElementFactory.java:1576-1578 | the dot product is symmetric |
| StereoScans.FirstSet | base/standard/src/main/java/org/openscience/cdk/stereo/StereoElementFactory.java:233-252 | the position found is at or after the start and inside the flags |
| StereoScans.FirstSetIsFirst | base/standard/src/main/java/org/openscience/cdk/stereo/StereoElementFactory.java:233-252 | the position found is set and none before it is; no position when none from the start is set |
| StereoScans.Flagged | base/standard/src/main/java/org/openscience/cdk/stereo/StereoElementFactory.java:946-967 | a count of set flags is at most the number scanned |
| StereoScans.Kept | base/standard/src/main/java/org/openscience/cdk/stereo/StereoElementFactory.java:946-967 | the entries a scan keeps, one per set flag |
| StereoScans.KeptIn | base/standard/src/main/java/org/openscience/cdk/stereo/StereoElementFactory.java:946-967 | every entry a scan keeps is an entry of the row |
| StereoScans.KeptPrefix | base/standard/src/main/java/org/openscience/cdk/stereo/StereoElementFactory.java:946-967 | a shorter scan keeps a prefix of what a longer one keeps |
| StereoScans.FillKept | base/standard/src/main/java/org/openscience/cdk/stereo/StereoElementFactory.java:1386-1399 | the loop writes the kept entries into consecutive slots from a start and changes no other slot |
| StereoScans.ExtendedSlots3D | base/standard/src/main/java/org/openscience/cdk/stereo/StereoElementFactory.java:1383-1399 | four slots: the first single-bonded neighbours of each terminal in slots 0 and 2, only neighbours or terminals anywhere |
| StereoScans.ExtendedNeighbors3D | base/standard/src/main/java/org/openscience/cdk/stereo/StereoElementFactory.java:1383-1401 | succeeds exactly when both terminals have a single-bonded neighbour, and then fills the slots as ExtendedSlots3D |
| StereoScans.KeptWithin | base/standard/src/main/java/org/openscience/cdk/stereo/StereoElementFactory.java:1386-1399 | kept entries lie in the range the row lies in |
| StereoScans.Others | base/standard/src/main/java/org/openscience/cdk/stereo/StereoElementFactory.java:812 | the flags that keep every entry but one atom |
| StereoScans.KeptOthersLength | base/standard/src/main/java/org/openscience/cdk/stereo/StereoElementFactory.java:810-829 | dropping an atom shortens the row by the times it occurs |
| StereoScans.KeptOthersExclude | base/standard/src/main/java/org/openscience/cdk/stereo/StereoElementFactory.java:810-829 | the dropped atom is never kept |
| StereoScans.RowBonds | base/standard/src/main/java/org/openscience/cdk/stereo/StereoElementFactory.java:585 | the bond to each neighbour, in row order |
| StereoScans.SingleFlagsOf | base/standard/src/main/java/org/openscience/cdk/stereo/StereoElementFactory.java:946-967 | flags the neighbours joined by a single bond, other than the skipped one |
| StereoScans.Hydrogens | base/standard/src/main/java/org/openscience/cdk/stereo/StereoElementFactory.java:1293-1296 | the explicit hydrogens of a row, at most its length |
| StereoScans.ElevAfter | base/standard/src/main/java/org/openscience/cdk/stereo/StereoElementFactory.java:818-825 | a carrier's elevation stays once nonzero, else the first usable wedge beyond it gives it one, in {-1, 0, 1} |
| StereoScans.CarrierElevation | base/standard/src/main/java/org/openscience/cdk/stereo/StereoElementFactory.java:816-825 | the elevation of a carrier in {-1, 0, 1} |
| StereoScans.CarrierElevations | base/standard/src/main/java/org/openscience/cdk/stereo/StereoElementFactory.java:810-829 | each neighbour's carrier elevation, in row order |
| StereoScans.CountHydrogens | base/standard/src/main/java/org/openscience/cdk/stereo/StereoElementFactory.java:1293-1296 | the loop takes one off the sum per explicit hydrogen |
| StereoScans.Carrier | base/standard/src/main/java/org/openscience/cdk/stereo/StereoElementFactory.java:1289-1298 | the carrier is appended and the sum drops by its hydrogens, so the sum stays the start minus the hydrogens of all carriers so far |
| StereoScans.Side3D | base/standard/src/main/java/org/openscience/cdk/stereo/StereoElementFactory.java:1288-1299 | the neighbours other than the axis partner, in row order, with the sum reduced by the hydrogens next to them |
| StereoScans.AxisCarriers | base/standard/src/main/java/org/openscience/cdk/stereo/StereoElementFactory.java:1288-1312 | the carriers at one end: its neighbours other than the other end |
| StereoScans.AxisCarrierPairs | base/standard/src/main/java/org/openscience/cdk/stereo/StereoElementFactory.java:1285-1312 | both ends' carriers, the first end's first |
| StereoScans.AxisScan3D | base/standard/src/main/java/org/openscience/cdk/stereo/StereoElementFactory.java:1261-1323 | passes exactly when the degree-sum gate holds before and after explicit hydrogens are taken off, and then the carriers are both ends' carriers |
| StereoScans.ScanCarrier | base/standard/src/main/java/org/openscience/cdk/stereo/StereoElementFactory.java:818-825 | the inner loop: hydrogens off the sum, and the first usable wedge |
| StereoScans.TakeCarrier | base/standard/src/main/java/org/openscience/cdk/stereo/StereoElementFactory.java:815-825 | one carrier's elevation and the hydrogens next to it |
| StereoScans.Side2DStep | base/standard/src/main/java/org/openscience/cdk/stereo/StereoElementFactory.java:811-828 | a wavy bond to a carrier gives up; otherwise the carrier, its elevation and its hydrogens are added |
| StereoScans.Side2D | base/standard/src/main/java/org/openscience/cdk/stereo/StereoElementFactory.java:810-829 | gives up exactly on a wavy bond to a carrier; otherwise the carriers, their elevations and the reduced sum |
| StereoScans.Side2DDone | base/standard/src/main/java/org/openscience/cdk/stereo/StereoElementFactory.java:810-849 | a side scanned to the end has the axis carriers, their elevations and the heavy-atom sum |
| StereoScans.AxisElevations | base/standard/src/main/java/org/openscience/cdk/stereo/StereoElementFactory.java:816-825 | the carriers' elevations, each in {-1, 0, 1} |
| StereoScans.KeptWithinValues | base/standard/src/main/java/org/openscience/cdk/stereo/StereoElementFactory.java:816-825 | kept values in {-1, 0, 1} stay there |
| StereoScans.AxisSidePair | base/standard/src/main/java/org/openscience/cdk/stereo/StereoElementFactory.java:784-851 | with three neighbours each end of the axis has two carriers |
| StereoScans.Atropisomer2DOf | base/standard/src/main/java/org/openscience/cdk/stereo/StereoElementFactory.java:776-875 | an element exactly when every check passes; then the four carriers, both ends', and a parity in {-1, 0, 1} about the centre of the axis |
| StereoScans.AxisScan2D | base/standard/src/main/java/org/openscience/cdk/stereo/StereoElementFactory.java:784-866 | passes exactly when the gate, the wavy check, the gate after hydrogens and the one-side rule all pass; then both ends' carriers and elevations |
| StereoScans.Atropisomer2DScan | base/standard/src/main/java/org/openscience/cdk/stereo/StereoElementFactory.java:784-871 | the checks then the parity, equal to Atropisomer2DOf |
| StereoScans.AxisPasses2DSymmetric | base/standard/src/main/java/org/openscience/cdk/stereo/StereoElementFactory.java:784-866 | the checks do not depend on which end of the axis is named first |
| StereoScans.Atropisomer2DEndsSwapped | base/standard/src/main/java/org/openscience/cdk/stereo/StereoElementFactory.java:776-875 | naming the ends the other way round gives the same configuration with the carrier pairs exchanged |
| StereoScans.PairsSwapped | base/standard/src/main/java/org/openscience/cdk/stereo/StereoElementFactory.java:806-849 | two carrier pairs put the other way round |
| StereoScans.Points2DSwapped | base/standard/src/main/java/org/openscience/cdk/stereo/StereoElementFactory.java:806-849 | their points follow the carriers |
| StereoScans.ExtendedSide2D | base/standard/src/main/java/org/openscience/cdk/stereo/StereoElementFactory.java:946-967 | succeeds exactly when no flagged bond is wavy and no more than the slots allow are flagged; then the flagged neighbours and their elevations |
| StereoScans.ExtendedSlots2D | base/standard/src/main/java/org/openscience/cdk/stereo/StereoElementFactory.java:942-967 | the slots of a 2D extended centre, a terminal standing in for its side's missing second neighbour |
| StereoScans.ExtendedElevations2D | base/standard/src/main/java/org/openscience/cdk/stereo/StereoElementFactory.java:940-967 | the elevations of those slots, a terminal standing in lying in the plane |
| StereoScans.ExtendedSides2D | base/standard/src/main/java/org/openscience/cdk/stereo/StereoElementFactory.java:939-974 | slots and elevations exactly when both sides are usable and the wedges are on exactly one side |
| StereoScans.ExtendedScan2D | base/standard/src/main/java/org/openscience/cdk/stereo/StereoElementFactory.java:945-974 | the two loops and the one-side check equal ExtendedSides2D |
| StereoScans.Points2D | base/standard/src/main/java/org/openscience/cdk/stereo/StereoElementFactory.java:1093-1097 | the points of four atoms |
| StereoScans.SinglesOf | base/standard/src/main/java/org/openscience/cdk/stereo/StereoElementFactory.java:946-967 | the single-bonded neighbours of a terminal, valid atom indices |
| StereoScans.ExtendedParity2D | base/standard/src/main/java/org/openscience/cdk/stereo/StereoElementFactory.java:939-976 | when both sides are usable and one-sided, four slots starting with the first single-bonded neighbour of each terminal, and a parity in {-1, 0, 1} |
| StereoScans.ExtendedTetrahedralScan2D | base/standard/src/main/java/org/openscience/cdk/stereo/StereoElementFactory.java:939-976 | the loops then the parity, equal to ExtendedParity2D |
| StereoScans.CollectAround | base/standard/src/main/java/org/openscience/cdk/stereo/StereoElementFactory.java:584-598 | gives up exactly on a wavy bond; otherwise the elevations, and nonplanar exactly when one is nonzero |
| StereoScans.HatchesBelow | base/standard/src/main/java/org/openscience/cdk/stereo/StereoElementFactory.java:618-634 | the fallback elevations: every hatch below the plane, the rest in it |
| StereoScans.InvertedHatches | base/standard/src/main/java/org/openscience/cdk/stereo/StereoElementFactory.java:609-641 | fails exactly when a bold wedge is met or a hatch leads to a verified stereocentre; otherwise hatches below the plane, and found exactly when there is a hatch; symmetry is checked only when a hatch leads to a possible centre |
| StereoScans.CentreElevations | base/standard/src/main/java/org/openscience/cdk/stereo/StereoElementFactory.java:584-644 | when the creator reaches its parity, one elevation per neighbour, at least three, some nonzero |
| StereoScans.CentreScan | base/standard/src/main/java/org/openscience/cdk/stereo/StereoElementFactory.java:584-644 | the scans of the 2D tetrahedral creator equal CentreElevations |
| StereoScans.Reals | base/standard/src/main/java/org/openscience/cdk/stereo/StereoElementFactory.java:1145-1146 | the elevations as numbers |
| StereoScans.Parity2DOf | base/standard/src/main/java/org/openscience/cdk/stereo/StereoElementFactory.java:1089-1103 | the 2D tetrahedral parity is in {-1, 0, 1} and 0 when a neighbour has no point |
| StereoScans.TetrahedralParity2D | base/standard/src/main/java/org/openscience/cdk/stereo/StereoElementFactory.java:1089-1103 | the loop of the parity equals Parity2DOf |
| StereoScans.NegatedInts | base/standard/src/main/java/org/openscience/cdk/stereo/StereoElementFactory.java:1145-1146 | every elevation negated |
| StereoScans.Parity2DMirror | base/standard/src/main/java/org/openscience/cdk/stereo/StereoElementFactory.java:1089-1147 | the mirror image (wedges and hatches exchanged) has the opposite parity |
| StereoScans.Parity2DSwap | base/standard/src/main/java/org/openscience/cdk/stereo/StereoElementFactory.java:1089-1147 | exchanging two neighbours with their elevations reverses the parity |
| StereoScans.Parity2DPairSwap | base/standard/src/main/java/org/openscience/cdk/stereo/StereoElementFactory.java:1089-1147 | exchanging the first pair of neighbours with the second keeps the parity |
| StereoScans.Parity2DFlat | base/standard/src/main/java/org/openscience/cdk/stereo/StereoElementFactory.java:1089-1147 | neighbours all at one elevation give parity 0 |
| StereoElementFactories.GraphOkPermuted | base/standard/src/main/java/org/openscience/cdk/stereo/StereoElementFactory.java:890-891 | permuting rows keeps the graph well formed |
| StereoElementFactories.MovedRowPermutes | base/standard/src/main/java/org/openscience/cdk/stereo/StereoElementFactory.java:890-891 | a row with an entry moved to the back is a permutation of the old row |
| StereoElementFactories.StereoElementFactory.BondsAround | base/standard/src/main/java/org/openscience/cdk/stereo/StereoElementFactory.java:584-586 | the bond to each neighbour, in row order |
| StereoElementFactories.StereoElementFactory.ViewOf | base/standard/src/main/java/org/openscience/cdk/stereo/StereoElementFactory.java:117-121 | the container as the scans read it |
| StereoElementFactories.StereoElementFactory.constructor | base/standard/src/main/java/org/openscience/cdk/stereo/StereoElementFactory.java:117-121 | the container, adjacency and edge map given; no projections, not strict, no check |
| StereoElementFactories.StereoElementFactory.InterpretProjections | base/standard/src/main/java/org/openscience/cdk/stereo/StereoElementFactory.java:473-477 | adds the projections and turns the stereocentre check on |
| StereoElementFactories.StereoElementFactory.CheckSymmetry | base/standard/src/main/java/org/openscience/cdk/stereo/StereoElementFactory.java:479-482 | sets whether centres are checked |
| StereoElementFactories.StereoElementFactory.WithStrictMode | base/standard/src/main/java/org/openscience/cdk/stereo/StereoElementFactory.java:492-497 | strict mode on, and centres checked |
| StereoElementFactories.StereoElementFactory.VisitSmallRing | base/standard/src/main/java/org/openscience/cdk/stereo/StereoElementFactory.java:123-138 | true at once on the atom marked 2; true exactly when the search predicate Reaches holds for the entry marks and max-depth+1 atoms, and then a simple unmarked path of that length, not stepping straight back, to the atom marked 2 is returned; when false, the marks are as on entry |
| StereoElementFactories.StereoElementFactory.ReachesPath | base/standard/src/main/java/org/openscience/cdk/stereo/StereoElementFactory.java:123-138 | the search succeeds exactly when a simple path of at most len atoms exists that steps along bonds over unmarked atoms to the atom marked 2 without stepping straight back (both directions) |
| StereoElementFactories.StereoElementFactory.RingPathShortened | base/standard/src/main/java/org/openscience/cdk/stereo/StereoElementFactory.java:130-134 | a path from an unmarked atom continues through a neighbour other than the one it came from, as a path judged with the atom marked 1 |
| StereoElementFactories.StereoElementFactory.RingPathExtended | base/standard/src/main/java/org/openscience/cdk/stereo/StereoElementFactory.java:131-134 | a path found from a neighbour extends to a path from the atom itself |
| StereoElementFactories.StereoElementFactory.IsInSmallRingBond | base/standard/src/main/java/org/openscience/cdk/stereo/StereoElementFactory.java:140-154 | true exactly when the ring flag is set and a simple path of at most max atoms leads from the end atom back to the begin atom, not along the bond; then that path is returned |
| StereoElementFactories.StereoElementFactory.SmallRingClosed | base/standard/src/main/java/org/openscience/cdk/stereo/StereoElementFactory.java:140-154 | a bond is in a small ring exactly when its ring flag is set and some simple path of at most max atoms from its end atom back to its begin atom closes a ring with it |
| StereoElementFactories.StereoElementFactory.IsInSmallRingAtom | base/standard/src/main/java/org/openscience/cdk/stereo/StereoElementFactory.java:156-164 | true exactly when the atom's ring flag is set and some bond at it is in such a ring; then that bond and its ring are returned |
| StereoElementFactories.StereoElementFactory.GetOtherDb | base/standard/src/main/java/org/openscience/cdk/stereo/StereoElementFactory.java:166-178 | the double bond at the atom other than the given one when it is unique, null for none or several |
| StereoElementFactories.StereoElementFactory.GetCumulatedDbs | base/standard/src/main/java/org/openscience/cdk/stereo/StereoElementFactory.java:188-202 | a result starts with the end bond, has at least two bonds, is a cumulated chain, is what the loop as written reaches, and is exactly `CumulatedDbs` of the end bond; no result means no other double bond, or a closed ring where the loop as written never ends (see Findings) |
| StereoElementFactories.StereoElementFactory.FirstOtherDb | base/standard/src/main/java/org/openscience/cdk/stereo/StereoElementFactory.java:191-193 | the other double bond at the begin atom, else at the end atom |
| StereoElementFactories.StereoElementFactory.CumulatedStep | base/standard/src/main/java/org/openscience/cdk/stereo/StereoElementFactory.java:197-199 | one pass keeps the loop state in step with the walk as written and collects a new bond |
| StereoElementFactories.StereoElementFactory.Slots | base/standard/src/main/java/org/openscience/cdk/stereo/StereoElementFactory.java:575-598 | the neighbours, the centre itself filling a missing fourth slot |
| StereoElementFactories.StereoElementFactory.Parity3DOf | base/standard/src/main/java/org/openscience/cdk/stereo/StereoElementFactory.java:1527-1556 | in {-1, 0, 1}, and 0 when a point is missing |
| StereoElementFactories.StereoElementFactory.Parity3DSwap | base/standard/src/main/java/org/openscience/cdk/stereo/StereoElementFactory.java:1527-1556 | exchanging the first two neighbours reverses the 3D winding |
| StereoElementFactories.StereoElementFactory.Parity3DPairSwap | base/standard/src/main/java/org/openscience/cdk/stereo/StereoElementFactory.java:1527-1556 | exchanging the first pair with the second keeps the 3D winding |
| StereoElementFactories.StereoElementFactory.AtomParity3D | base/standard/src/main/java/org/openscience/cdk/stereo/StereoElementFactory.java:1527-1556 | the loop over the four points equals Parity3DOf |
| StereoElementFactories.StereoElementFactory.SingleFlags | base/standard/src/main/java/org/openscience/cdk/stereo/StereoElementFactory.java:1387-1399 | flags the single-bonded neighbours other than the skipped one |
| StereoElementFactories.StereoElementFactory.Singles | base/standard/src/main/java/org/openscience/cdk/stereo/StereoElementFactory.java:1387-1399 | the single-bonded neighbours, valid atoms |
| StereoElementFactories.StereoElementFactory.CreateTetrahedral3D | base/standard/src/main/java/org/openscience/cdk/stereo/StereoElementFactory.java:1224-1249 | an element exactly for a stereocentre with specified parity and three or four neighbours; its slots are the neighbours (the centre fills a fourth), ANTI_CLOCKWISE exactly for positive parity, so 0 gives CLOCKWISE |
| StereoElementFactories.StereoElementFactory.Substituent | base/standard/src/main/java/org/openscience/cdk/stereo/StereoElementFactory.java:1340-1341 | the first neighbour other than the partner |
| StereoElementFactories.StereoElementFactory.Reorient | base/standard/src/main/java/org/openscience/cdk/stereo/StereoElementFactory.java:1357 | the double bond is stored as running from u to v; nothing else changes |
| StereoElementFactories.StereoElementFactory.CreateGeometric3D | base/standard/src/main/java/org/openscience/cdk/stereo/StereoElementFactory.java:1333-1360 | an element exactly when both atoms have specified parity and the four points exist; OPPOSITE exactly for positive parity, so 0 gives TOGETHER; the bond is re-oriented only then |
| StereoElementFactories.StereoElementFactory.ExtendedSlotsAt | base/standard/src/main/java/org/openscience/cdk/stereo/StereoElementFactory.java:1383-1399 | the four slots of a 3D extended centre, valid atoms |
| StereoElementFactories.StereoElementFactory.CreateExtendedTetrahedral3D | base/standard/src/main/java/org/openscience/cdk/stereo/StereoElementFactory.java:1364-1408 | an element exactly for a specified focus with two bonds, co-linear terminals and a single-bonded neighbour on each; the winding follows the parity, 0 giving CLOCKWISE |
| StereoElementFactories.StereoElementFactory.EndCarriers | base/standard/src/main/java/org/openscience/cdk/stereo/StereoElementFactory.java:1288-1312 | an end's carriers are its neighbours other than the partner |
| StereoElementFactories.StereoElementFactory.Atropisomer3D | base/standard/src/main/java/org/openscience/cdk/stereo/StereoElementFactory.java:1252-1329 | an element only when the gate holds with and without explicit hydrogens (sums 8/9, 9/8, 9/9); then the axis bond, both ends' carriers, LEFT exactly for positive parity |
| StereoElementFactories.StereoElementFactory.CreateAtropisomer3D | base/standard/src/main/java/org/openscience/cdk/stereo/StereoElementFactory.java:1252-1329 | the creator equals Atropisomer3D |
| StereoElementFactories.StereoElementFactory.Atropisomer3DEndsSwapped | base/standard/src/main/java/org/openscience/cdk/stereo/StereoElementFactory.java:1252-1329 | naming the ends the other way round gives the same configuration with the carrier pairs exchanged |
| StereoElementFactories.StereoElementFactory.CreateAtropisomer2D | base/standard/src/main/java/org/openscience/cdk/stereo/StereoElementFactory.java:776-875 | an element exactly when every check passes; then both ends' carriers and LEFT exactly for positive parity about the centre of the axis |
| StereoElementFactories.StereoElementFactory.FarAtom | base/standard/src/main/java/org/openscience/cdk/stereo/StereoElementFactory.java:1020-1021 | the atom across the first other bond, a valid atom |
| StereoElementFactories.StereoElementFactory.ChainCarriers | base/standard/src/main/java/org/openscience/cdk/stereo/StereoElementFactory.java:1007-1018 | one carrier at each end of the chain, not the chain's own bond, the end named first by findTerminalAtoms first |
| StereoElementFactories.StereoElementFactory.ExtendedCisTrans3D | base/standard/src/main/java/org/openscience/cdk/stereo/StereoElementFactory.java:1410-1467 | an element exactly for an odd chain whose ends both carry another bond; the middle bond, the carriers, OPPOSITE exactly when the carrier directions point away from each other |
| StereoElementFactories.StereoElementFactory.ChainEndsReversed | base/standard/src/main/java/org/openscience/cdk/stereo/StereoElementFactory.java:993-1021 | a chain read from its other end has its end atoms, their carriers and the atoms across them exchanged, and the same middle bond |
| StereoElementFactories.StereoElementFactory.ExtendedCisTrans3DReversed | base/standard/src/main/java/org/openscience/cdk/stereo/StereoElementFactory.java:1410-1467 | the 3D extended cis/trans element is the same read from either end of the chain |
| StereoElementFactories.StereoElementFactory.ChainPoints3DReversed | base/standard/src/main/java/org/openscience/cdk/stereo/StereoElementFactory.java:1410-1467 | the points the 3D creator reads are there from either end |
| StereoElementFactories.StereoElementFactory.ExtendedCisTrans2D | base/standard/src/main/java/org/openscience/cdk/stereo/StereoElementFactory.java:983-1038 | as in 3D, and once symmetry has been checked both end atoms must be stereocentres |
| StereoElementFactories.StereoElementFactory.ExtendedCisTrans2DReversed | base/standard/src/main/java/org/openscience/cdk/stereo/StereoElementFactory.java:983-1038 | the 2D extended cis/trans element is the same read from either end of the chain |
| StereoElementFactories.StereoElementFactory.ExtendedCisTrans2DReversedFound | base/standard/src/main/java/org/openscience/cdk/stereo/StereoElementFactory.java:983-1038 | whether an element is found does not depend on the end read from |
| StereoElementFactories.StereoElementFactory.ExtendedCisTrans2DReversedConfig | base/standard/src/main/java/org/openscience/cdk/stereo/StereoElementFactory.java:1023-1035 | the two readings agree on the configuration |
| StereoElementFactories.StereoElementFactory.ChainPoints2DReversed | base/standard/src/main/java/org/openscience/cdk/stereo/StereoElementFactory.java:983-1038 | the points the 2D creator reads are there from either end |
| StereoElementFactories.StereoElementFactory.PolarBonds | base/standard/src/main/java/org/openscience/cdk/stereo/StereoElementFactory.java:662 | the bonds of an atom in polar order, one per neighbour |
| StereoElementFactories.StereoElementFactory.SlotPoints | base/standard/src/main/java/org/openscience/cdk/stereo/StereoElementFactory.java:1093-1095 | the points of the four slots |
| StereoElementFactories.StereoElementFactory.Padded | base/standard/src/main/java/org/openscience/cdk/stereo/StereoElementFactory.java:575-578 | a missing fourth elevation is 0 |
| StereoElementFactories.StereoElementFactory.Tetrahedral2DElevations | base/standard/src/main/java/org/openscience/cdk/stereo/StereoElementFactory.java:564-644 | when the creator reaches its parity, one elevation per neighbour, three or four |
| StereoElementFactories.StereoElementFactory.CreateTetrahedral2D | base/standard/src/main/java/org/openscience/cdk/stereo/StereoElementFactory.java:564-653 | an element exactly when the elevations are reached and the parity is nonzero; the slots are the neighbours (the centre fills a fourth), ANTI_CLOCKWISE exactly for positive parity; symmetry is checked only through a hatch to a possible centre |
| StereoElementFactories.StereoElementFactory.MovedRow | base/standard/src/main/java/org/openscience/cdk/stereo/StereoElementFactory.java:890-891 | the row's neighbours, the partner last and nowhere else |
| StereoElementFactories.StereoElementFactory.Conformation2D | base/standard/src/main/java/org/openscience/cdk/stereo/StereoElementFactory.java:893-918 | an element only without wavy substituents or a crossed double bond; the carriers are the first substituents, OPPOSITE exactly when the two side parities agree |
| StereoElementFactories.StereoElementFactory.Geometric2D | base/standard/src/main/java/org/openscience/cdk/stereo/StereoElementFactory.java:879-919 | what the 2D double-bond creator answers: the double bond and one carrier per end |
| StereoElementFactories.StereoElementFactory.Geometric2DEndsSwapped | base/standard/src/main/java/org/openscience/cdk/stereo/StereoElementFactory.java:879-919 | read from its other end the double bond has the same conformation, with the carriers exchanged |
| StereoElementFactories.StereoElementFactory.MoveRowToBack | base/standard/src/main/java/org/openscience/cdk/stereo/StereoElementFactory.java:890-891 | the row is shuffled in place as MovedToBack; nothing else changes |
| StereoElementFactories.StereoElementFactory.CreateGeometric2D | base/standard/src/main/java/org/openscience/cdk/stereo/StereoElementFactory.java:879-919 | the answer is Geometric2D of the state on entry; the rows are shuffled once both ends pass the first checks; the bond is re-oriented only for an element |
| StereoElementFactories.StereoElementFactory.CreateExtendedTetrahedral2D | base/standard/src/main/java/org/openscience/cdk/stereo/StereoElementFactory.java:923-981 | an element exactly for a specified focus whose terminals are stereocentres once symmetry is checked and whose sides allow a parity; the winding follows the parity, 0 giving CLOCKWISE |
| StereoElementFactories.StereoElementFactory.ChainTest | base/standard/src/main/java/org/openscience/cdk/stereo/StereoElementFactory.java:233-239 | a neighbour yields a chain exactly when it is Tricoordinate and the chain from its bond exists and runs from its lower-numbered end; the chain is `CumulatedDbs` of that bond, starts with it and is cumulated |
| StereoElementFactories.StereoElementFactory.UsableChains | base/standard/src/main/java/org/openscience/cdk/stereo/StereoElementFactory.java:233-239 | one flag per neighbour of the atom, in row order, set exactly when that neighbour passes the tests |
| StereoElementFactories.StereoElementFactory.ChainRequest | base/standard/src/main/java/org/openscience/cdk/stereo/StereoElementFactory.java:231-254 | the request is for the first neighbour, in row order, that passes the tests, with its chain, and no neighbour before it passes; no request exactly when no neighbour passes |
| StereoElementFactories.StereoElementFactory.AxisBondOk | base/standard/src/main/java/org/openscience/cdk/stereo/StereoElementFactory.java:270-275 | passes exactly a single bond that is in no ring of up to six atoms and whose two atoms each lie on a bond that is in such a ring |
| StereoElementFactories.StereoElementFactory.AxisTest | base/standard/src/main/java/org/openscience/cdk/stereo/StereoElementFactory.java:267-273 | passes the k-th neighbour exactly when it is higher-numbered, Tricoordinate, and its bond passes the axis tests |
| StereoElementFactories.StereoElementFactory.AxisNeighbourRequest | base/standard/src/main/java/org/openscience/cdk/stereo/StereoElementFactory.java:265-275 | a neighbour that passes gives an atropisomer request the first pass accepts |
| StereoElementFactories.StereoElementFactory.AxisRequest | base/standard/src/main/java/org/openscience/cdk/stereo/StereoElementFactory.java:265-282 | a request only for a higher-numbered Tricoordinate neighbour over a bond that passes; no request only when no such neighbour's bond passes |
| StereoElementFactories.StereoElementFactory.FirstDoubleAbove | base/standard/src/main/java/org/openscience/cdk/stereo/StereoElementFactory.java:292-302 | the first neighbour in row order numbered above the atom and joined to it by a double bond; none only when there is no such neighbour |
| StereoElementFactories.StereoElementFactory.DoubleBondRequest | base/standard/src/main/java/org/openscience/cdk/stereo/StereoElementFactory.java:292-304 | only the first double bond to a higher-numbered atom is considered; it is requested exactly when the other atom is a verified Tricoordinate centre and the bond is in no ring of up to seven atoms |
| StereoElementFactories.StereoElementFactory.PlanAll | base/standard/src/main/java/org/openscience/cdk/stereo/StereoElementFactory.java:212-310 | every first-pass request is one the driver may make, every Tetracoordinate atom is asked for, every second-pass request is a checked double bond, and symmetry ends checked |

## Left out

- I/O, logging and console output are left out: the logger calls in the factory, and `printIncidenceMatrix`.
- Floating point is not modelled bit for bit. Doubles are exact reals. The unit vector of a 2D vector (a square root), the polar sort of a centre's bonds, the class of its largest angle (arc tangents), and `isColinear`'s tolerance are answers supplied by the `Layout` oracle. The geometry that needs no root (`det`, the weighted sum, the side parity, the 3D cross and dot products, and the direction tests of the extended cis/trans creators) is computed over reals.
- Code outside this model is given as data or oracles: `Stereocenters` (answers before and after the symmetry check, and its `checkSymmetry` state), `Cycles.markRingAtomsAndBonds` (the ring flags), the Fischer and cyclic carbohydrate recognisers, and the `findTerminalAtoms` helpers of ExtendedTetrahedral and ExtendedCisTrans.
- StereoElementFactories.StereoElementFactory.PlanAll: returns the requests the driver makes of the creators, rather than the elements they return. The projections' elements are not included. Completeness (every atom of a kind is asked for) is stated only for tetrahedral centres.
- StereoElementFactories.StereoElementFactory.GetCumulatedDbs: stops with no result when the pending bond was already collected. The code as written loops forever there (see Findings).
- Null and index-out-of-bounds exceptions that only a malformed container can raise become preconditions. This covers a bond not in the edge map, a neighbour list longer than the slots, the dead `n != 4` check (:851) and the "3 bonds only" exceptions.
- StereoElementFactories.StereoElementFactory.CreateTetrahedral2D, CreateAtropisomer2D, CreateExtendedTetrahedral2D, ExtendedCisTrans3D, ExtendedCisTrans2D: require that the 2D or 3D points the creator reads without a null check are present. These are the focus atom (:1097 and, through StereoScans.ExtendedFocusReady, the extended focus), the two axis ends (:869-870), and the chain ends and the atoms across them (:1023-1026 in 2D, :1450-1455 in 3D). The code as written throws a NullPointerException when such a point is missing.
- StereoElementFactories.StereoElementFactory.ExtendedCisTrans2DReversed, ExtendedCisTrans3DReversed: require that the points read from the other end are present. That requirement is discharged by ChainPoints2DReversed and ChainPoints3DReversed.
- StereoGeometry.BondParity3D, StereoGeometry.TetrahedralParity3D: only their range is stated. Their sign comes from the real cross and dot products.
- The jgrapht parts of SimpleCycleBasis are not part of this model: the path search in `minimize`, the auxiliary graphs, `essentialCycles`, `relevantCycles` and `equivalenceClasses`. `InsertCycle` takes the shortest cycle found as an argument.
- CycleBasis.SimpleCycle: the weight is an int field. The `(int)` cast of the double weight is left out.
- CycleBasis.Sort: an insertion sort stands in for `Arrays.sort`. It is specified only by its result (sorted and a permutation).
- FormatStringBuilders.FormatStringBuilder.FormatLong: appends the corrected single-sign text for Long.MIN_VALUE in base 10, not the code's "--9223372036854775808"; the text as written is FormatText.LongTextAsWritten (see Findings).
- FormatStringBuilders.FormatStringBuilder.RenderLong: uses the corrected single-sign text for Long.MIN_VALUE, as FormatLong does.
- FormatStringBuilders.FormatStringBuilder.NumberText: uses the corrected digits of |Long.MIN_VALUE| without a second '-', as FormatLong does.
- FormatText.AbsText: gives the digits of |Long.MIN_VALUE| without the '-' that `Math.abs` leaves on it; the code as written is FormatText.AbsTextAsWritten (see Findings).
- StereoScans.Atropisomer2DOf: takes the parity about the corrected midpoint of the axis, not the centre the code computes from the second end's height; the code's centre is StereoGeometry.MidpointAsWritten (see Findings).
- StereoScans.Atropisomer2DScan: uses the corrected midpoint, as Atropisomer2DOf does.
- StereoScans.Atropisomer2DEndsSwapped: holds for the corrected midpoint; with the code's centre the parity can depend on which end is named first (see Findings).
- StereoElementFactories.StereoElementFactory.CreateAtropisomer2D: uses the corrected midpoint, as Atropisomer2DOf does.
- FormatStringBuilders.FormatStringBuilder.PadWhileShorter, PadWhilePositive, AppendSignedPrefix: the field width is decremented in unbounded integers. The wrap-around of a width near Integer.MIN_VALUE is not modelled.
- `format(double)` and `format(float)` are left out: they rely on DecimalFormat and floating point.
- VFQuery.VFQueryBuilder.NodeOf: searches the atom map in an unspecified order (a HashMap's). It is stated only as some node mapped to the atom.
- Matchers of the VF nodes and edges are opaque values; their matching logic is not part of this model.

## Findings

| source | as written | input that shows it | evidently intended | confidence | as-written member | corrected member |
|---|---|---|---|---|---|---|
| base/standard/src/main/java/org/openscience/cdk/stereo/StereoElementFactory.java:196-200 | `getCumulatedDbs` loops while a further double bond exists and never checks whether that bond was already collected | a ring of three atoms joined by three double bonds (0=1=2=0), started on bond 0: every pass finds the next bond of the ring, so the list grows forever | the walk stops once the chain closes on itself | not executed | StereoChains.CumulatedRingNeverEnds | StereoElementFactories.StereoElementFactory.GetCumulatedDbs |
| storage/io/src/main/java/org/openscience/cdk/io/FormatStringBuilder.java:422-458 | base-10 `format(long)` prints `String.valueOf(Math.abs(l))` and then a '-' for negatives; `Math.abs(Long.MIN_VALUE)` is still negative | `format(Long.MIN_VALUE)` with "%d" gives "--9223372036854775808" | one '-' followed by the 19 digits of the magnitude | not executed | FormatText.MinValueTwoSigns | FormatText.DecimalLayout |
| base/standard/src/main/java/org/openscience/cdk/stereo/StereoElementFactory.java:869-870 | the centre of the atropisomer axis takes its y from `(end2.y + end2.y)/2` | ends (0,0) and (0,2): the centre is (0,2), the second end itself, not (0,1) | the midpoint of the two ends, the same whichever end is named first | not executed | StereoGeometry.MidpointAsWrittenSkewed | StereoGeometry.MidpointCentred |
