# RasDenoise in Dafny

RasDenoise is a command-line tool. It denoises images with OpenCV (through Emgu),
and it splits images into a frequency magnitude and phase and puts them back together.
This project models the tool's own logic, leaving the numerics to OpenCV:

- **Quadrants** (`quadrants.dfy`): `Methods.RearrangeQuadrants`. The quadrants of a 2-D array are
  swapped in place through a scratch block. The array is also specified cell by cell (`Rearranged`),
  as an involution and as a permutation.
- **Pipeline** (`pipeline.dfy`): the DFT pipeline of `Methods.cs`. This covers the per-channel
  loops of `ForwardTransform` and `InverseTransform`, the zero padding in `ForwardChannel`, the
  quadrant moves on both sides, and the size guard of `DFTInverse`. The OpenCV steps (`Dft`,
  `CartToPolar`, `Normalize`, `MinMaxIdx`, `GetOptimalDFTSize`, ...) are fields of a `Spectral`
  record of functions. Image and metadata I/O are fields of a `Files` record.
- **Samples** and **Bytes** (`samples.dfy`, `bytes.dfy`): raw sample access on an image buffer.
  This covers the row-major addressing of `GetValue` and `SetValue`, the per-depth converters
  `ConvertFrom` and `ConvertTo`, `IsCompatible`, and `BytesToDouble`. Little-endian
  two's-complement encoding is modelled exactly. `ConvertTo` fails on every Cv8S value, as the
  code does (see Findings); `ConvertToIntended` is the encoder the code evidently intends.
- **Helpers** (`helpers.dfy`): `AppendWrap` as a loop over a `StringBuilder` class, `EqualsIC`, and
  both `TryParse` overloads.
- **MethodArgs** (`method_args.dfy`): the five argument parsers. Each one is a loop method proved
  equal to a recursive function over the arguments still to read. The parsers' edge behaviour is
  stated as lemmas on those functions.
- **EntryPoint** (`program.dfy`): `Main`, `ParseMethod` and `MainMain` as methods of a `Program`
  class holding the static `Method` field, plus the section selection of `Usage`.
- **ComplexArrays** (`complex_array.dfy`): `ComplexArray`, `ComplexArray2D` and the
  `ComplexArray1D` row and column views that share one `array2`, plus `Clone`.
- **Wrappers** (`wrappers.dfy`): `Option` (C# null), `Result` and the .NET exceptions involved.

## Model

| member | source | states |
|---|---|---|
| Quadrants.RearrangeQuadrants | Methods.cs:287-305 | the array afterwards is `Rearranged` of its old contents: quadrant q0 exchanged with q3, q1 with q2, where cx = Width/2 and cy = Height/2 |
| Quadrants.Rearranged | Methods.cs:289-304 | the rearranged grid has the same number of rows and columns |
| Quadrants.RearrangedAt | Methods.cs:289-304 | a cell inside the quadrants takes the value of its partner cy rows and cx columns away; every other cell keeps its value |
| Quadrants.RearrangedTwice | Methods.cs:287-305 | rearranging twice gives back the original grid |
| Quadrants.QuadrantsSwapped | Methods.cs:292-304 | for r < cy and c < cx, (r, c) is exchanged with (r+cy, c+cx), and (r, c+cx) with (r+cy, c) |
| Quadrants.OddLinesFixed | Methods.cs:289-295 | with an odd height the last row is unchanged; with an odd width the last column is unchanged |
| Quadrants.RearrangedPermutes | Methods.cs:292-304 | the multiset of all cells is unchanged |
| Quadrants.BlockRearranged | Methods.cs:292-304 | the grid built from the four row and column blocks has the original shape |
| Quadrants.BlocksMatchCells | Methods.cs:292-304 | the block-by-block construction equals the cell-by-cell definition |
| Quadrants.BlockPermutes | Methods.cs:292-304 | the block construction only moves cells, so the multiset of cells is kept |
| Quadrants.MovedPermutes | Methods.cs:292-304 | exchanging the upper and lower pairs of quadrant rows and swapping row halves keeps the multiset of cells |
| Quadrants.TwoSwapsRearrange | Methods.cs:297-304 | swapping q0 with q3 and then q1 with q2 yields exactly `Rearranged` |
| Quadrants.Pasted | Methods.cs:298-304 | pasting one block over another keeps the grid's shape; cells inside the block come from the source block and all other cells are unchanged |
| Quadrants.CopyRow | Methods.cs:298-304 | one row of a block is copied cell by cell into the target row, and no other cell changes |
| Quadrants.CopyBlock | Methods.cs:298-304 | `Mat.CopyTo` between regions: the destination becomes `Pasted` of its old contents with the source block |
| Quadrants.SwapThroughScratch | Methods.cs:297-300 | saving block 1, copying block 2 over it, then the saved copy over block 2 exchanges two non-overlapping blocks |
| Quadrants.SwapBlocks | Methods.cs:297-304 | two disjoint blocks are exchanged through `tmp`, and every other cell keeps its value |
| Pipeline.Padded | Methods.cs:144-147 | the padded plane has the requested rows and columns |
| Pipeline.PaddedCells | Methods.cs:140-147 | padding to at least the original size keeps every original sample at its index, and the added bottom rows and right columns are 0 |
| Pipeline.CopyMakeBorder | Methods.cs:144-147 | a fresh array of the optimal size holding `Padded` of the source |
| Pipeline.ForwardPlanes | Methods.cs:137-184 | the magnitude and phase planes have the optimal rows and columns |
| Pipeline.ForwardChannel | Methods.cs:137-184 | the channel is padded and transformed, and both planes are rearranged |
| Pipeline.ForwardNorm | Methods.cs:117-135 | both quantised planes have the padded size |
| Pipeline.ForwardNormChannel | Methods.cs:117-135 | the ranges of the unquantised planes are recorded, and both planes are normalised onto 0..65535 |
| Pipeline.ForwardTransform | Methods.cs:88-115 | the three lists have one entry per channel; entry m is computed from channel m alone; both merged images have the padded size |
| Pipeline.MergedValid | Methods.cs:106-114 | every per-channel output has the padded size, so the merges are well-formed images |
| Pipeline.InverseChannel | Methods.cs:247-285 | magnitude and phase are rearranged back in place, then the inverse transform is applied to them |
| Pipeline.InverseNormChannel | Methods.cs:226-245 | the recorded ranges are restored, the channel is inverted and quantised, and it keeps the plane's shape |
| Pipeline.InverseTransform | Methods.cs:206-224 | succeeds iff every magnitude channel has a phase channel and a range; output channel c comes from magnitude c, phase c and range c; otherwise IndexOutOfRange, or NullReference for a null range list |
| Pipeline.QuadrantsRestored | Methods.cs:250-251 | on the forward output, the inverse side's rearrangement undoes the forward side's, so the inverse sees exactly the planes the transform produced |
| Pipeline.DFTForward | Methods.cs:76-86 | reads the original, then saves the magnitude, the phase and the ranges, in that order; entry m of each comes from channel m |
| Pipeline.DFTInverse | Methods.cs:186-204 | when the sizes differ, only the two images are read and nothing else happens; otherwise the ranges are read, and the image saved under the original's name exists iff the inverse transform succeeds and has channel c computed from magnitude c, phase c and range c; a failure carries NullReference for a missing range list and IndexOutOfRange otherwise |
| Samples.IsCompatible | Helpers.cs:111-121 | true iff the value's type is the element type of the depth; any unlisted depth takes float |
| Samples.ConvertFrom | Helpers.cs:77-109 | the value read has the element type of the depth |
| Samples.SByteValue | Helpers.cs:81 | the sbyte cast of a byte lies in -128..127 and is congruent to the byte modulo 256 |
| Samples.ChangeTypeTo | Helpers.cs:144-160 | `Convert.ChangeType` to an integer type yields a value in that type's range, or throws OverflowException |
| Samples.ConvertTo | Helpers.cs:137-172 | Cv8S always fails, with InvalidCast when `ChangeType` succeeds; for the other integer depths it fails exactly when `ChangeType` overflows, and on success yields at least DepthSize bytes (Cv8U: the byte, then zeros up to the element size); the float depths never fail |
| Samples.ConvertRoundTrip | Helpers.cs:80-161 | a value in range converts successfully iff the depth is not Cv8S; for Cv8U, Cv16S, Cv16U and Cv32S it encodes into at least DepthSize bytes that decode back to itself |
| Samples.ConvertToIntended | Helpers.cs:142-145 | the evidently intended encoder: equal to ConvertTo except on Cv8S, where it succeeds exactly when `ChangeType` to sbyte succeeds |
| Samples.IntendedRoundTrip | Helpers.cs:80-161 | with the intended encoder, every integer depth, Cv8S included, reads back a value in range |
| Samples.Int16RoundTrip | Helpers.cs:150-153 | an Int16 is written as two little-endian bytes, and `ToInt16` reads it back |
| Samples.UInt16RoundTrip | Helpers.cs:154-157 | a UInt16 is written as two bytes, and the signed `ToInt16` read followed by the ushort cast recovers it |
| Samples.Int32RoundTrip | Helpers.cs:158-161 | an Int32 is written as four little-endian bytes and read back |
| Samples.SByteConvertToFails | Helpers.cs:142-145 | ConvertTo on Cv8S is the as-written branch, which fails for every value; an sbyte in range throws InvalidCast, while the intended encoder stores its byte |
| Samples.SByteBytes | Helpers.cs:142-145 | the corrected Cv8S buffer has the element's size |
| Samples.SByteRoundTrip | Helpers.cs:80-83 | the corrected Cv8S encoding reads back the sbyte that was written |
| Samples.BytesToDouble | Helpers.cs:228-248 | an empty array reads as 0; fails iff the length is not 0, 1, 2, 4 or 8, and then with NotSupportedException |
| Samples.BytesToDoubleRoundTrip | Helpers.cs:228-245 | one byte is read unsigned, and 2, 4 or 8 bytes as the signed little-endian value `BitConverter.GetBytes` wrote |
| Samples.Overwrite | Helpers.cs:134 | the written bytes sit at the offset, and every byte outside them is unchanged |
| Samples.ElementWithin | Helpers.cs:72 | element (row, col) ends inside a rows × cols × ElementSize buffer |
| Samples.CopyBytes | Helpers.cs:134 | `Marshal.Copy` replaces exactly `count` bytes from the start offset and leaves the rest of the buffer unchanged |
| Samples.Mat.constructor | Helpers.cs:72 | the buffer holds rows × cols elements of ElementSize bytes |
| Samples.Mat.OffsetInRange | Helpers.cs:72 | the element at (row·Cols + col)·ElementSize lies within the buffer |
| Samples.Mat.GetValue | Helpers.cs:69-75 | the ElementSize bytes at the element's offset are decoded to a value of the depth's element type |
| Samples.Mat.SetValue | Helpers.cs:123-135 | a failed conversion writes nothing; otherwise exactly the ElementSize bytes at the address `GetValue` reads are replaced; on a Cv8S Mat every write ends in ConversionFailed (InvalidCast for a convertible value) and the buffer is unchanged |
| Samples.SetThenGet | Helpers.cs:123-135 | the conversion of a value in range succeeds iff the depth is not Cv8S; an element of depth Cv8U, Cv16S, Cv16U or Cv32S written at an offset reads back, at the same offset, the value that was written |
| Bytes.Unsigned | Helpers.cs:85 | the unsigned value of n bytes is below 256^n |
| Bytes.Signed | Helpers.cs:89 | the two's-complement value of n bytes lies in -256^n/2 .. 256^n/2 - 1 |
| Bytes.LittleEndian | Helpers.cs:152 | `BitConverter.GetBytes` yields exactly n bytes |
| Bytes.UnsignedOfLittleEndian | Helpers.cs:93 | encoding v into n bytes keeps v modulo 256^n |
| Bytes.LittleEndianRoundTrip | Helpers.cs:150-161 | an in-range value encoded little-endian decodes back to itself, read unsigned or signed |
| Helpers.EqualsIC | Helpers.cs:42-45 | false whenever either string is null; otherwise exactly the case-insensitive comparison |
| Helpers.TryParse | Helpers.cs:49-56 | returns the handler's verdict and out value |
| Helpers.TryParseNullable | Helpers.cs:57-67 | returns the handler's verdict; the value is null on failure and the parsed value on success |
| Helpers.TryParseOverloadsAgree | Helpers.cs:49-67 | the two overloads report the same verdict, and the nullable one holds the value exactly when parsing worked |
| Helpers.Spaces | Helpers.cs:24 | `new string(' ', n)` is n spaces |
| Helpers.StringBuilder.Append | Helpers.cs:29 | the text grows by the appended string |
| Helpers.StringBuilder.AppendLine | Helpers.cs:29 | the text grows by the string and a newline |
| Helpers.AppendWrap | Helpers.cs:16-40 | appends exactly `Wrapped(m, w, offset)` for w = width - 1 - offset, and returns the same builder |
| Helpers.AppendChunk | Helpers.cs:22-36 | one loop turn appends the indent and the chunk at c as a line, so the layout still to write shrinks to the chunks from c + w |
| Helpers.LayoutStep | Helpers.cs:24-36 | the layout from chunk c is that chunk's line followed by the layout of the remaining chunks |
| Helpers.ChunksConcat | Helpers.cs:26-35 | the chunks put back together give m |
| Helpers.ChunkLengths | Helpers.cs:26-35 | every chunk but the last has exactly w characters, and the last has 1 to w |
| Helpers.ChunkCount | Helpers.cs:18-37 | there are ceil(\|m\| / w) chunks, and none for an empty message |
| Helpers.LayoutIsLines | Helpers.cs:22-37 | the output is its lines in order: no indent on the first line, `offset` spaces on every later one, and a newline after each |
| Helpers.WrapEmpty | Helpers.cs:20-22 | an empty message appends nothing |
| Helpers.WrappedLines | Helpers.cs:16-40 | the appended text is the chunks of m as lines; the chunks concatenate to m, and there are ceil(\|m\| / w) of them |
| MethodArgs.Place | MethodArgs.cs:28-34 | a positional argument fills src if it is null, else dst if that is null, else is dropped |
| MethodArgs.ParseNlMeans | MethodArgs.cs:14-37 | the loop, with its `++a` bumps, computes `NlMeansFrom` of all the arguments |
| MethodArgs.NlMeansSlotsFull | MethodArgs.cs:28-34 | once src and dst are set, further positional arguments change nothing |
| MethodArgs.NlMeansPositional | MethodArgs.cs:28-34 | without flags, the first non-flag argument becomes src, the second dst, and later ones are ignored |
| MethodArgs.NlMeansUnflaggedKept | MethodArgs.cs:22-27 | a field whose flag does not occur keeps its value |
| MethodArgs.NlMeansDefaults | MethodArgs.cs:8-16 | options not supplied stay 0 |
| MethodArgs.NlMeansLastWins | MethodArgs.cs:22-27 | the value after the last -h, -t or -s is the result's h, templateWindowSize or searchWindowSize |
| MethodArgs.NlMeansUnparsable | MethodArgs.cs:22-27 | an option value that does not parse makes Parse return null |
| MethodArgs.NlMeansTrailingFlag | MethodArgs.cs:22-33 | a flag as the last argument reads args[len], which throws unless src and dst are both set |
| MethodArgs.ParseNlMeansColored | MethodArgs.cs:49-71 | the loop computes `NlMeansColoredFrom` of all the arguments |
| MethodArgs.ColoredAgrees | MethodArgs.cs:53-70 | the colored parser reads exactly what the plain one reads and never sets hColor |
| MethodArgs.ColoredHColorZero | MethodArgs.cs:44-68 | hColor is always 0, and `-c v` fills src and dst with "-c" and v |
| MethodArgs.ParseDct | MethodArgs.cs:81-95 | the loop computes `DctFrom` of all the arguments |
| MethodArgs.DctShape | MethodArgs.cs:83-94 | never throws and never sets src or dst; sigma stays null unless -s is given, and psize is kept unless -p is given |
| MethodArgs.DctIgnores | MethodArgs.cs:85-93 | any argument other than -s and -p is skipped, as is a trailing flag |
| MethodArgs.DctLastWins | MethodArgs.cs:88-91 | the value after the last -s becomes sigma, and the value after the last -p becomes psize |
| MethodArgs.ParseTVL1 | MethodArgs.cs:105-125 | the loop computes `TVL1From` of all the arguments and stores the file list in srcList |
| MethodArgs.TVL1AllSources | MethodArgs.cs:110-123 | without flags, every argument is appended to srcList, in order |
| MethodArgs.TVL1TrailingFlag | MethodArgs.cs:113-120 | a flag as the last argument always throws IndexOutOfRange |
| MethodArgs.TVL1SourcesOrdered | MethodArgs.cs:110-123 | srcList only grows, and only by arguments that were given |
| MethodArgs.TVL1Sources | MethodArgs.cs:110-123 | srcList is exactly the positional arguments (neither a flag nor a flag's value), in the order given |
| MethodArgs.TVL1UnflaggedKept | MethodArgs.cs:113-118 | dst, lambda and niters keep their values when their flag does not occur |
| MethodArgs.TVL1LastWins | MethodArgs.cs:113-118 | the value after the last -o, -l or -n becomes dst, lambda or niters |
| MethodArgs.ParseDFT | MethodArgs.cs:135-156 | computes `DFTFrom` of the arguments, then fills in default names from a non-empty Ori |
| MethodArgs.DFTFirstOriginal | MethodArgs.cs:139-146 | the first token that is not a flag pair becomes Ori |
| MethodArgs.DFTOriKept | MethodArgs.cs:145 | once set, Ori is never replaced |
| MethodArgs.DFTDefaultNames | MethodArgs.cs:148-154 | with a non-empty Ori, explicit names are kept and missing ones become GetBaseName(Ori) + ".mag.png" / ".phs.png" / ".dta.png" |
| MethodArgs.DFTNoDefaultsWithoutOri | MethodArgs.cs:148-155 | without a non-empty Ori no name is invented |
| MethodArgs.DFTUnflaggedKept | MethodArgs.cs:142-144 | a file name whose flag (-p, -m or -d) does not occur keeps its value |
| MethodArgs.DFTLastWins | MethodArgs.cs:142-144 | the value after the last -p, -m or -d names the phase, magnitude or range file |
| EntryPoint.UsageSections | Program.cs:50-145 | the usage text always starts with the synopsis |
| EntryPoint.UsageCases | Program.cs:66-145 | the sections printed for each kind of argument: all of them for Help, one method's, the header alone, or just the synopsis |
| EntryPoint.UsageHeader | Program.cs:66-70 | the "Additional Information" header appears iff help >= Help |
| EntryPoint.UsageDetails | Program.cs:71-144 | method k's section appears iff help == Help or help == k |
| EntryPoint.UsageOrder | Program.cs:71-144 | method sections appear in method order |
| EntryPoint.Program.constructor | Program.cs:47 | Method starts as None |
| EntryPoint.Program.ParseMethod | Program.cs:150-170 | returns false iff the first token is a help token, showing usage for the second token (Help when absent or unparsable); otherwise sets Method, Help when unparsable, and returns true |
| EntryPoint.Program.MainMain | Program.cs:172-250 | dispatches each method's parse result; Dct runs only with sigma, and TVL1 only with lambda and then niters; a null ments throws NullReference, and an exception from the Dct or TVL1 parse is the crash Main logs; DFTInverse and every other value run nothing |
| EntryPoint.Program.Start | Program.cs:15-44 | with no arguments only the synopsis is shown; a help token stops after ParseMethod; otherwise Method is parsed and MainMain runs |
| ComplexArrays.ComplexArray.constructor | ComplexArray.cs:32-35 | a fresh array of `len` default elements |
| ComplexArrays.ComplexArray.Set | ComplexArray.cs:39-46 | index i holds the value, and every other index is unchanged |
| ComplexArrays.ComplexArray2D.constructor | ComplexArray.cs:53-56 | GetLength(0) is width, GetLength(1) is height, and every element is the default |
| ComplexArrays.ComplexArray2D.GetLength | ComplexArray.cs:58-60 | dimension 0 or 1 gives its extent; any other dimension throws IndexOutOfRange |
| ComplexArrays.ComplexArray2D.Set | ComplexArray.cs:62-69 | exactly cell (i, j) changes |
| ComplexArrays.ComplexArray2D.GetRow | ComplexArray.cs:71-74 | a fresh view sharing the array, of length GetLength(0), whose element i is cell (i, j) |
| ComplexArrays.ComplexArray2D.GetCol | ComplexArray.cs:76-79 | a fresh view sharing the array, of length GetLength(1), whose element k is cell (i, k) |
| ComplexArrays.ComplexArray1D.constructor | ComplexArray.cs:87-92 | the view keeps the given array itself, not a copy |
| ComplexArrays.ComplexArray1D.Get | ComplexArray.cs:98-101 | element i is cell (index, i) of a column view and cell (i, index) of a row view |
| ComplexArrays.ComplexArray1D.Set | ComplexArray.cs:102-108 | exactly the one shared cell behind element i changes |
| ComplexArrays.IComplexArray.Set | ComplexArray.cs:10-14 | through the interface, element i holds the value and every other element keeps its value |
| ComplexArrays.Clone | ComplexArray.cs:18-25 | a fresh flat ComplexArray, even when cloning a view, of the same length and with the same elements |
| ComplexArrays.CloneIsDetached | ComplexArray.cs:18-25 | a write to the clone leaves every element of the input unchanged |
| ComplexArrays.RowWriteIsShared | ComplexArray.cs:98-108 | a write through a row view shows at (i, j) in the 2-D indexer and changes no other cell |
| ComplexArrays.ViewsCross | ComplexArray.cs:98-101 | the row view at j and the column view at i read the same cell (i, j) |

## Left out

- Image I/O (`Imread`, `Save`), `Merge` and `Split`, `PrintInfo`, and all console output. The pipeline records reads and saves as a list of effects.
- Pipeline.Files: `Files.Valid` takes every `Imread` to yield a valid image, so an unreadable or missing file, which gives an empty Mat in the source, is not represented.
- The OpenCV numerics: `Dft`, `CartToPolar`/`PolarToCart`, `Log`/`Exp`, `AddS`, `MinMaxIdx`, `Normalize`, `GetOptimalDFTSize` and the 32F conversion. They are opaque functions of `Spectral`; the two `Normalize` uses are separate fields, the Cv16U quantisation and the Cv32F range restore. `Spectral.Valid` assumes that every step keeps the plane's shape and that optimal sizes are never smaller. The second is not what OpenCV does for sizes near the int32 maximum, where `GetOptimalDFTSize` returns a negative value; such sizes are not modelled.
- The dta metadata codec (`SaveDtaFile`, `TryReadDtaFile`), `AllFiles`, `GetSafeFileName` and `GetBaseName` are not part of this model. They are opaque functions. The bool that `TryReadDtaFile` returns is ignored by the source and not modelled.
- The denoisers `NlMeans`, `NlMeansColored`, `Dct` and `TVL1` are not modelled. A dispatch records which one would run, and with which arguments.
- Pipeline.DFTForward: takes the parsed `DFTArgs` record instead of `Helpers.AllFiles`, which is not part of this model.
- Pipeline.ForwardTransform: the `Mat[]` lists are modelled as sequences updated at index m, not as arrays.
- Pipeline.ForwardChannel: `CopyMakeBorder` writes the padded channel into a new array, instead of padding `imgSrc` in place.
- Floating-point samples (Cv32F, Cv64F) are carried as raw bytes. `Convert.ToSingle`, `Convert.ToDouble` and the rounding of floats to integers are opaque `FloatOps` functions.
- Samples.Mat.GetValue: the generic cast `(T)(object)tmp`, which throws InvalidCastException for a mismatched `T`, is not modelled; the boxed value is returned.
- Samples.BytesToDouble: returns the integer; its conversion to double is not modelled.
- Samples.Mat.SetValue: the address `(row * Cols + col) * ElementSize` is computed on unbounded integers. Its 32-bit overflow is not modelled, and row and col are required in range.
- Helpers.AppendWrap: requires w = width - 1 - offset >= 1, and `offset` is a `nat`. With w < 1 the source never advances, or `Substring` throws. A negative offset makes `new string` throw.
- Helpers.NewLine is taken to be "\n".
- EntryPoint.UsageSections: the sections are modelled, not their literal text or the `AppendWrap` calls that format them.
- The parse handlers (`double.TryParse`, `int.TryParse`, `Enum.TryParse`) and culture-aware case comparison are opaque functions.
- In `DFTArgs.Parse` the source tests `all.Ori`, `all.Mag`, `all.Phs` and `all.Dta`, but no `all` is declared there. The only object in scope is `o`, so the model reads `o`.
- EntryPoint.Program.Start models `Main`. It does not model the AppDomain hooks or `RedirectError`. An exception escaping a parser becomes the `Crashed` dispatch, which Main's catch would log.
- EntryPoint.Program.Start: the outcome says MainMain ran, but not what it dispatched; MainMain's own contract states that.
- The parsers' result objects are record values that the loop reassigns field by field, rather than mutable objects. A null result is `Null`, and an exception is `Threw`.
- ComplexArrays: indices are required to be in range instead of throwing IndexOutOfRange, and sizes are `nat`, so negative sizes are excluded. `IComplexArray` is a datatype with one case per implementing class. `Complex` is held but never computed with.

## Findings

| source | as written | input that shows it | evidently intended | confidence | as-written member | corrected member |
|---|---|---|---|---|---|---|
| Helpers.cs:144 | `(byte)Convert.ChangeType(value, typeof(sbyte))` unboxes the boxed `sbyte` as a `byte`, which throws InvalidCastException, so every Cv8S write ends in SetValue's catch and nothing is stored | `SetValue` on a Cv8S Mat with the value `(sbyte)5` | store the two's-complement byte of the sbyte, so that `ConvertFrom` reads back the same sbyte | not executed | Samples.SByteConvertToFails | Samples.IntendedRoundTrip |
