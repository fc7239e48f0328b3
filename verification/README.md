# A verified model of the ClickHouse native-protocol client

The project models the parts of the client whose correctness spans many functions, and
proves what they promise for all inputs, all runs and all interleavings.

**Wire format.** `Bytes`, `Parsed`, `Uvarint` and `ReadEx` are the byte layer: varints,
fixed-width words, length-prefixed strings, a `Reader` whose short reads arrive in arbitrary
pieces, and an `Encoder`. Every reader is a function of the buffer and a position
(`ReadUvarint`, `ReadBlob`, ...) with three outcomes, a value, "would block" and an error;
the loops of the source are methods proved equal to these functions. `SqlTypes`, `Factory`
and `TypeNames` print type names and dispatch on them. `Columns` is the column tree with its
row access, `ColumnCodec` loads it, `Slices` and `Chunks` say which row ranges survive being
saved on their own, `BlockCodec` is the block around the columns, and `ColumnIo` holds the
loops that save and load columns and blocks over an encoder and a reader. What a reader and a
writer could agree on wrongly is written out in numbers: `Scalars` has the names, cells and
ranges of fixed-width values, `Layouts` the bytes of columns and blocks, `TypeAliases` the names
that are only read, and `Utf8` compares well-formed strings with encoded scalar values.

**Columns in memory.** `Push` appends a value at any nesting. `Iterators` has one mutable
iterator per level of the tree and row access beside it, both in terms of the rows that a
client gets: the entries of a map row are collected into a table. `Concat` has the prefix-sum
index of concatenated columns, the search in it and the iterator over chunks. `StringPool` is
the arena of string columns over real arrays. `Dictionary` is the low-cardinality column with its widening index and value map.

**Protocol.** `Packets` parses server packets, `Transport` receives bytes and sends commands,
`PacketStream` moves the transport through the answer to one command, and `Session` runs
pings, executions and block streams against a server that answers in order.

**Pool.** `PoolSteps` is the slot protocol with every load, compare-exchange, push, pop and
flag store as one step of one of any number of actors. `Pool` is the same protocol as a class
whose methods are single steps; it adds the waiters and the fairness of opening. `PoolAlone`
says what an undisturbed use of the pool comes to and that every use ends, and `PoolRefines`
that both pools agree on it.

**Values.** `Decimal` compares and rescales decimals in wrapping 64-bit arithmetic and writes
them as 32- or 64-bit integers. `QueryParams` quotes parameter values and writes the list
that an empty name ends.

Conventions. Integers are unbounded and every width, truncation and wrap-around of the source
is written out. `read_uvarint` shifts by up to any count; the model takes the shift count
modulo 64 as a release build does, and such shifts happen only on inputs that are rejected.
Overflowing decimal products wrap, as in a release build. A panic of the source is an outcome
of the model (`Panicked`, `Panic`, `None`, `false`), not a precondition, except for `max >= 1`
of the pool, a chunk size above 0 and equally long columns in a block that is written. Where
the documentation and the code differ, the code is modelled.

Results that are false of the code are stated with their exact condition:

- A row range of an array or map column that begins behind inner rows is damaged by saving it
  on its own, because offsets are saved as they stand (`Slices.RowsReloaded`,
  `Chunks.ChunksRoundTrip`; examples `Slices.ArraySliceExample`, `Chunks.ArrayChunksExample`).
- A block without rows is sent as a block without columns, so its names and types do not come
  back (`Chunks.ChunksRoundTrip`).
- A printed type name leads back to its type only for `Recoverable` types: no nested
  Nullable, scale at most precision at most 18, no comma in a map key
  (`TypeNames.NameRecovers`, `BlockCodec.BlockTypesReturn`).
- A flat iterator and row access differ on null bytes other than 0 and 1, and row access
  panics on map rows whose keys cannot be hashed (`Iterators.ItemIsRow`, for concatenated
  columns `Concat.DrainIsAccess`; examples `Iterators.NullByteExample`,
  `Iterators.DateKeyExample`).
- A push into a low-cardinality column panics on values that cannot be hashed: booleans,
  floats, addresses and UUIDs (`Dictionary.LowCardinalityColumn.Push`,
  `Dictionary.UnhashableValue`).
- A push into a loaded low-cardinality column whose dictionary outgrew its index stores a cut
  code, for a new value and for a known one (`Dictionary.LowCardinalityColumn.Push`; example
  `Dictionary.LosesValue`). Entries of a dictionary are distinct for every sequence of pushes
  if and only if the inner type stores values without loss (`Dictionary.DistinctExactly`).
- `read_block` panics exactly when the connection closes before a block or the end
  (`PacketStream.PacketStream.ReadBlock`), and `execute` exactly when it closes behind blocks
  and progress only (`Session.Client.SendAndRead`).
- Opening a block stream panics exactly on a handle that is not attached to a pool
  (`Session.Client.StreamBlocks`); after a server exception in a stream the handle is left so
  (`Session.PanicsAfterException`).
- Without a ping before the query, a block stream on a transport with unread packets reads
  packets of an older answer (`Session.Client.StreamBlocks`).
- Decimals compare wrongly with some number of another scale if and only if the scaled product
  leaves 64 bits (`Decimal.EqExact`; example `Decimal.WrappedEquality`), and comparing or
  rescaling across more than 18 digits panics (`Decimal.EqIsSame`, `Decimal.ScaleUp`,
  `Decimal.ScaleDown`); a pushed decimal keeps its integer and so its number only when the
  scales agree or it is zero (`Decimal.PushedScale`).

One property fails in some runs and holds in all runs of a stated kind: at the granularity of
atomic operations a wake-up can be lost (`PoolSteps.LostWakeup`), and none is lost in a run in
which no drain of wakers ends while another request stands between finding no idle connection
and parking (`PoolSteps.NoLostWakeup`).

## Model

| member | source | states |
|---|---|---|
| Uvarint.UvarintRoundTrip | src/binary/uvarint.rs:3-14 | Reading what was written of any 64-bit number gives it back and reads exactly those bytes, at any position and whatever follows |
| Uvarint.UvarintAccepts | src/binary/read_ex.rs:79-98 | A terminated byte string is accepted if and only if it has at most ten bytes and denotes a number below 2^64; the answer is that number, without wrap-around |
| Uvarint.LebLength64 | src/binary/uvarint.rs:3-14 | A 64-bit number takes at most ten bytes |
| Uvarint.UvarintMono | src/binary/read_ex.rs:79-98 | An answer does not change when bytes are added behind |
| Uvarint.PutUvarint | src/binary/uvarint.rs:3-14 | The loop writes the canonical encoding at the start of the buffer, returns its length and leaves the rest of the buffer alone |
| Utf8.Utf8Exactly | src/binary/read_ex.rs:53-58 | A byte string is well-formed if and only if it is the encoding of a sequence of Unicode scalar values |
| ReadEx.Reader.TakeUvarint | src/binary/read_ex.rs:79-98 | The shift-and-or loop computes the value of the groups, overflows where `UvarintAccepts` says and stops behind the terminator |
| ReadEx.Reader.TakeBytes | src/binary/read_ex.rs:25-42 | However the bytes are handed out, the buffer is filled with the next bytes, or the call would block exactly when there are too few |
| ReadEx.Reader.TakeString | src/binary/read_ex.rs:53-58 | A length-prefixed string, an error when it is not UTF-8 |
| ReadEx.Reader.Skip | src/binary/read_ex.rs:60-77 | Moves behind a length-prefixed string without checking it |
| ReadEx.StringAt | src/binary/read_ex.rs:53-58 | `read_string` gives back what `byte_string` wrote if and only if that is UTF-8 |
| ReadEx.BlobMono | src/binary/read_ex.rs:53-58 | A string read, or an error met, stays the same with more bytes behind |
| ReadEx.Encoder.Uvarint | src/binary/encoder.rs:18-22 | Appends the canonical encoding of any 64-bit number through a ten-byte scratch buffer |
| ReadEx.Encoder.ByteString | src/binary/encoder.rs:29-32 | Appends length and bytes |
| TypeNames.NameRoundTrip | src/types/mod.rs:399-448 | Printing a recoverable type and dispatching on the name gives the same type, at every nesting depth |
| TypeNames.NameRecovers | src/types/column/factory.rs:83-115 | A printed name leads back to its type if and only if the type is recoverable |
| TypeNames.OneBranch | src/types/column/factory.rs:83-115 | No two of the branches for the modelled types accept the printed name of any type, and exactly one accepts that of a recoverable type |
| TypeNames.OtherBranchesRefuse | src/types/column/factory.rs:96-108 | The enum, date-time and aggregate branches accept no printed name of a modelled type: it lacks their keyword |
| TypeNames.DispatchMap | src/types/column/factory.rs:280-292 | The name of a map is split at the first comma, inside the key if there is one |
| TypeNames.DispatchDecimal | src/types/column/factory.rs:313-390 | The printed decimal is accepted if and only if scale <= precision <= 18 |
| TypeNames.DispatchLowCardinality | src/types/column/factory.rs:519-540 | The inner name is what stands between the first and the last parenthesis |
| TypeNames.DispatchNullable | src/types/column/factory.rs:257-269 | A Nullable directly inside a Nullable is refused |
| TypeAliases.AliasExactly | src/types/column/factory.rs:313-395 | `Decimal32(S)` has nine digits in 32 bits and `Decimal64(S)` eighteen in 64 bits, for every scale of one byte; a greater one is refused |
| TypeAliases.PaddedInner | src/types/column/factory.rs:280-292 | Spaces around an inner type name are dropped |
| TypeAliases.PaddedMap | src/types/column/factory.rs:280-292 | In a map name the spaces around both inner names are dropped |
| TypeAliases.PaddedLowCardinality | src/types/column/factory.rs:519-540 | The same in a low-cardinality name |
| TypeAliases.SignedNumeral | src/types/column/factory.rs:245-255 | A numeral may have one plus sign and nothing else |
| TypeAliases.CutNames | src/types/column/factory.rs:245-292 | Keywords cut off before the closing parenthesis are slices outside the name, and panic |
| Scalars.PlainNameExactly | src/types/column/factory.rs:65-88 | A name stands for a scalar type or a string if and only if it is one of its names or aliases, in any case of letters |
| Scalars.ScalarLoads | src/types/column/numeric.rs:160-170 | `n` rows of each scalar type take `n` times 1, 2, 4, 8 or 16 bytes as the type has it, row `i` being the i-th piece; with fewer bytes the call would block |
| Scalars.IntegersReturn | src/types/column/numeric.rs:163-176 | Integers over the whole range of each of the ten types stand in a column least significant byte first, in two's complement, and come back |
| Scalars.CellReturns | src/types/column/numeric.rs:173-175 | Every cell of an integer type holds one integer of its range |
| Scalars.LittleEndian | src/types/marshal.rs:1-15 | Byte `i` of a written word is digit `i` of the number to base 256 |
| SqlTypes.ParseShow | src/types/column/factory.rs:245-255 | Printed numbers are parsed back exactly while they are below the limit of the integer |
| ColumnCodec.LoadSaved | src/types/column/factory.rs:58-116 | For every well-formed column of a recoverable type and every row range, loading under the printed type name reads exactly the saved bytes, whatever follows, and makes `Reload` of them |
| ColumnCodec.LoadSavedNullable | src/types/column/nullable.rs:24-48 | The same for nullable columns over any inner column |
| ColumnCodec.LoadSavedArray | src/types/column/array.rs:24-60 | The same for arrays: the inner rows up to the last offset |
| ColumnCodec.LoadSavedMap | src/types/column/map.rs:24-66 | The same for maps: keys, then values, up to the last offset |
| ColumnCodec.LoadSavedLowCardinality | src/types/column/low_cardinality.rs:220-304 | The same for dictionary, flags, counts and codes; nothing is written for no rows |
| ColumnCodec.LoadSavedDecimal | src/types/column/decimal.rs:44-66 | The same for decimals over 32- and 64-bit integers |
| ColumnCodec.CellsReturn | src/types/column/fixed_string.rs:42-71 | The same for fixed-width cells |
| ColumnCodec.StringsReturn | src/types/column/string.rs:38-46 | The same for strings of any bytes |
| ColumnCodec.LoadMono | src/types/column/factory.rs:58-116 | A column loaded, or an error met, stays the same when bytes are added behind |
| ColumnCodec.LoadedType | src/types/column/factory.rs:58-116 | Whatever bytes are loaded, the column has the type that its name stands for |
| ColumnCodec.ReloadType | src/types/column/mod.rs:181-203 | A column comes back with the type it had |
| ColumnCodec.SaveNothing | src/types/column/low_cardinality.rs:291-304 | An empty row range of any column is no bytes |
| ColumnIo.SaveColumn | src/types/column/array.rs:51-60 | The recursive saver over the encoder appends exactly the bytes that `LoadSaved` reads back |
| ColumnIo.SaveStrings | src/types/column/string.rs:176-181 | The loop appends the strings of the range in order |
| ColumnIo.SaveOffsets | src/types/column/map.rs:56-62 | The loop appends the offsets as they stand and leaves the last, or 0 for no rows |
| ColumnIo.SaveLowCardinality | src/types/column/low_cardinality.rs:291-304 | Version, flags, whole dictionary, row count and codes, or nothing for no rows |
| ColumnIo.LoadColumn | src/types/column/factory.rs:58-116 | The recursive loader over the shared reader answers what the reference loader answers, on any bytes and for any type name |
| ColumnIo.LoadStrings | src/types/column/string.rs:38-46 | The loop through a string pool reads the strings in order, or stops where one is incomplete |
| ColumnIo.LoadFixedStrings | src/types/column/fixed_string.rs:42-52 | Reading cell by cell is reading all cells at once, also when the bytes run out |
| ColumnIo.LoadIndexHeader | src/types/column/low_cardinality.rs:233-247 | Version, width code, global-dictionary and additional-keys bits, with the errors for each |
| ColumnIo.LoadInfo | src/types/block/block_info.rs:26-42 | The field loop: any order, any number, an error on an unknown field |
| ColumnIo.LoadBlock | src/types/block/mod.rs:176-192 | The column loop with `append_column` answers what the reference loader answers |
| ColumnIo.WriteBlock | src/types/block/mod.rs:368-376 | The loop appends exactly the bytes that `BlockAt` reads back |
| ColumnIo.WriteAndLoad | src/types/block/mod.rs:368-376 | Written by the loops of one side and loaded by those of the other, a block comes back and the bytes behind it stay |
| BlockCodec.BlockAt | src/types/block/mod.rs:176-192 | Loading a written block reads exactly its bytes, at any position, on both sides of the custom-serialization revision |
| BlockCodec.BlockRoundTrip | src/types/block/mod.rs:368-376 | A block of whole columns comes back with the same info, names, types and rows |
| BlockCodec.BlockTypesReturn | src/types/column/mod.rs:225-233 | A written block comes back with its types if and only if every column type is recoverable |
| BlockCodec.InfoAt | src/types/block/block_info.rs:44-50 | Block info comes back, negative bucket numbers included |
| BlockCodec.MarkerAt | src/types/column/mod.rs:189-194 | The serialization marker is there exactly from revision 54454 on, and is accepted when 0 |
| BlockCodec.BlockMono | src/types/block/mod.rs:176-192 | A block loaded, or an error met, stays the same when bytes are added behind |
| Layouts.ArrayLayout | src/types/column/array.rs:51-60 | Offsets of eight bytes as they stand, then the inner rows from the first one to the last offset |
| Layouts.MapLayout | src/types/column/map.rs:56-66 | The same with keys, then values |
| Layouts.NullableLayout | src/types/column/nullable.rs:44-48 | One null byte a row, then the inner column |
| Layouts.LowCardinalityLayout | src/types/column/low_cardinality.rs:291-304 | Version 1, flags 0x600 with the width code, dictionary size, dictionary, number of codes, codes; nothing for no rows |
| Layouts.NoCodes | src/types/column/low_cardinality.rs:226-231 | Without rows no header is read and the codes have one byte |
| Layouts.OtherFlagsPanic | src/types/column/low_cardinality.rs:233-262 | A column is loaded only if its flags are those that the client writes |
| Layouts.HeaderAccepted | src/types/column/low_cardinality.rs:233-272 | A header is accepted if and only if the version is 1, the width code is below 4, no global dictionary is asked for and additional keys are there |
| Layouts.InfoLayout | src/types/block/block_info.rs:44-52 | Field 1 with the overflow byte, field 2 with the bucket number, end mark |
| Layouts.InfoDefault | src/types/block/block_info.rs:18-24 | Fields left out are no overflow and bucket -1 |
| Layouts.InfoUnknown | src/types/block/block_info.rs:27-42 | A field of another number is an error |
| Layouts.MarkerExactly | src/types/column/mod.rs:189-194 | From revision 54454 on one byte is read, which has to be zero |
| Layouts.LengthsAgree | src/types/block/mod.rs:215-224 | A column of another length than the first one is a panic |
| Layouts.NoWidthPanics | src/types/column/fixed_string.rs:73-75 | So is a column of strings without bytes |
| Layouts.UnevenNullablePanics | src/types/column/nullable.rs:50-53 | So is one with another number of null bytes than inner rows |
| Layouts.NameErrors | src/types/column/factory.rs:130-136 | Names of no type are an error, names that end too early a panic |
| Layouts.BlockLayout | src/types/block/mod.rs:337-377 | Info, counts, and for a column its name, its type, the marker from revision 54454 on, and its rows |
| Layouts.EmptyLayout | src/types/block/mod.rs:337-377 | The ten bytes of the block without columns |
| Slices.RowsReloaded | src/types/column/chunk.rs:30-36 | Saving a row range and loading it gives those rows if and only if no array or map row at its head has inner rows in front |
| Slices.RowReloaded | src/types/column/array.rs:51-60 | Every row behind the first of any range survives, and the first one of an exact range |
| Slices.FirstRowDiffers | src/types/column/map.rs:56-66 | The first row of any other range comes back different |
| Slices.SliceableIsExact | src/types/column/low_cardinality.rs:291-304 | Columns of types without Array and Map survive in every range |
| Slices.ReloadWellFormed | src/types/column/array.rs:24-42 | What is loaded satisfies the column invariant again |
| Slices.ArraySliceExample | src/types/column/array.rs:51-60 | The second of two one-element arrays, saved alone, comes back with both elements |
| Chunks.ChunkIterator.Next | src/types/block/chunk_iterator.rs:14-37 | Yields the next row range of every column, one empty block for a block without rows, nothing at the end |
| Chunks.CollectChunks | src/types/block/mod.rs:385-387 | Iterating to the end gives all chunks |
| Chunks.ChunkSizes | src/types/block/chunk_iterator.rs:26-36 | Every chunk has 1 to n rows and all columns under their names, all but the last have n, and there are just enough of them; the block info is the default |
| Chunks.ChunkLoads | src/types/block/chunk_iterator.rs:29-33 | Each written chunk is loaded as the reloaded range, from exactly its bytes |
| Chunks.EveryChunkLoads | src/types/block/chunk_iterator.rs:14-37 | There is one loaded block for each chunk, the empty one of a block without rows included |
| Chunks.EmptyReturns | src/types/block/chunk_iterator.rs:17-20 | The block without columns comes back as it is, from exactly its bytes |
| Chunks.ChunksRoundTrip | src/types/block/mod.rs:286-309 | Split, written and loaded, a block with rows has for each column chunks of its type, which `concat` accepts, and they hold its rows, in order, if and only if no cut damages a row; without Array and Map in the type none does; a block without rows comes back as one block without columns |
| Chunks.PiecesRows | src/types/column/mod.rs:240-247 | The same for one column from any row on |
| Chunks.ArrayChunksExample | src/types/column/array.rs:51-60 | Two array rows survive as one chunk and not as two |
| Concat.BuildIndex | src/types/column/concat.rs:88-101 | The loop makes the prefix sums of the sizes |
| Concat.FindChunk | src/types/column/concat.rs:103-125 | For every row in range, however many chunks are empty, the search ends in the one chunk that holds the row; out of range it answers 0 |
| Concat.FlatAt | src/types/column/concat.rs:59-63 | The row found through the index is the row of the flattened concatenation |
| Concat.ConcatColumn.Get | src/types/column/concat.rs:59-63 | Row access answers what row access of the chunks answers, one after another, and panics exactly out of range and where the chunk does |
| Concat.ConcatColumn.Size | src/types/column/concat.rs:51-53 | The last index entry counts the rows of all chunks |
| Concat.ConcatColumns | src/types/column/concat.rs:17-39 | Concatenation panics exactly on no chunks and on chunks of different types |
| Concat.ComplexIterator.Next | src/types/column/iter/mod.rs:1345-1393 | The recursive call terminates, empty chunks are passed over, and the rows come as the flat iterators over the chunks yield them |
| Concat.ComplexIterator.Step | src/types/column/iter/mod.rs:1380-1391 | The next row of the current chunk's iterator, or the chunk is given up with nothing lost |
| Concat.Drain | src/types/column/iter/mod.rs:1345-1393 | Iterating to the end gives what the iterators over the chunks give, in order |
| Concat.DrainIsAccess | src/types/column/iter/mod.rs:1345-1393 | That is what row access gives, without a panic, if and only if all rows of all chunks are clean |
| Iterators.FlatIterator.Next | src/types/column/iter/mod.rs:678-745 | For any nesting, the k-th call yields the k-th item, each inner iterator standing where the consumed rows end, so that none runs out early |
| Iterators.FlatIterator.NextNullable | src/types/column/iter/mod.rs:684-696 | The inner value is consumed also below a null |
| Iterators.FlatIterator.NextArray | src/types/column/iter/mod.rs:722-745 | The items from the previous to this offset, taken from the inner iterator |
| Iterators.FlatIterator.NextMap | src/types/column/iter/mod.rs:777-801 | Keys and values of the row in step, collected into a table in which the last value of a key stays |
| Iterators.Collect | src/types/column/iter/mod.rs:678-745 | Draining gives every item, in order |
| Iterators.ItemIsRow | src/types/column/map.rs:94-111 | Row access answers what the iterator yields if and only if the row is clean: null bytes of 0 and 1 wherever they are seen, keys that can be hashed in map rows with entries, values that a later key overwrites not counted |
| Iterators.DrainedRows | src/types/column/array.rs:85-100 | Draining equals row access from 0 to the length, without a panic, if and only if all rows are clean, which null bytes 0 and 1 and keys that can be hashed guarantee |
| Iterators.TablesEqual | src/types/column/map.rs:104-109 | Two tables over the same keys agree if and only if the values that no later entry overwrites agree |
| Iterators.KeysAgree | src/types/value_ref.rs:58-75 | Columns of keys that can be hashed read the same both ways, without a panic |
| Iterators.KeyHashableExactly | src/types/value_ref.rs:58-74 | Strings and integers can be keys of a row that is accessed, no other plain or nested type |
| Iterators.DateKeyExample | src/types/value_ref.rs:58-75 | The iterator yields a map row with a date as key, and row access panics on it |
| Iterators.NullByteExample | src/types/column/iter/mod.rs:684-696 | A null byte of 2 is a null for the iterator and a value for row access |
| Push.PushValue | src/types/column/nullable.rs:55-74 | A push at any nesting keeps the column invariant, keeps every row and appends the stored form of the value; it panics exactly on values not of the type |
| Push.PushArray | src/types/column/array.rs:66-83 | The new offset and the items go together: offsets stay monotone and end at the inner length |
| Push.PushMap | src/types/column/map.rs:72-92 | The same for keys and values, pushed in turn |
| Push.ArrayPushed | src/types/column/array.rs:66-83 | Appending items and offset leaves all earlier rows and adds one |
| Push.MapPushed | src/types/column/map.rs:72-92 | Appending entries and offset leaves all earlier rows and adds one |
| Push.NullablePushed | src/types/column/nullable.rs:55-74 | Flag and inner value together add a null or a present value |
| Push.PaddedAt | src/types/column/fixed_string.rs:77-88 | A string pushed into a column of fixed strings is cut, or filled up with zero bytes |
| Push.StoredExactly | src/types/column/nullable.rs:55-74 | A value is stored as it is if and only if it is one that a column of the type can hold, and what is stored always is one |
| StringPool.Pool.Push | src/types/column/string_pool.rs:63-97 | Allocate and fill appends one string and changes no earlier one, for any size and capacity, 0 included |
| StringPool.Pool.Allocate | src/types/column/string_pool.rs:63-70 | The recursion happens at most once; a chunk is added exactly when the last one is full or missing |
| StringPool.Pool.Reserve | src/types/column/string_pool.rs:99-104 | The new chunk has 80 bytes for each string of the capacity, or the requested size if that is more |
| StringPool.Pool.PointersDisjoint | src/types/column/string_pool.rs:80-97 | No two ranges given out share a byte |
| StringPool.Pool.Get | src/types/column/string_pool.rs:106-124 | The i-th string of the list |
| StringPool.FromList | src/types/column/string_pool.rs:39-51 | The pool of a list of strings is that list |
| StringPool.ReadStrIntoBuffer | src/binary/read_ex.rs:100-105 | A string read into the pool is appended to it |
| StringPool.StringIter.Next | src/types/column/string_pool.rs:25-37 | Yields the strings in order |
| Dictionary.LowCardinalityColumn.Push | src/types/column/low_cardinality.rs:310-329 | Panics exactly on values that cannot be hashed or are not of the type; a grown column appends the stored value, keeps every earlier row, codes below the dictionary size and inside the width, and without loss distinct entries; on any other column the value, new or known, is the last row if its code fits the index, and only then when one entry reads like it |
| Dictionary.LowCardinalityColumn.PushCode | src/types/column/low_cardinality.rs:145-155 | Widens when one more row would pass the maximum, then appends the code cut to the width |
| Dictionary.LowCardinalityColumn.BuildValueMap | src/types/column/low_cardinality.rs:274-284 | The map from each row's value to its code, the last row deciding; a panic exactly on a column with rows that cannot be hashed |
| Dictionary.LastRowDecides | src/types/column/low_cardinality.rs:274-283 | When entries of the dictionary are equal, the map has the code of the last row |
| Dictionary.LowCardinalityColumn.Empty | src/types/column/low_cardinality.rs:203-217 | An empty column satisfies the invariant of grown ones |
| Dictionary.LowCardinalityColumn.CloneInstance | src/types/column/low_cardinality.rs:336-342 | A copy without the map has the same rows and is grown if the original was |
| Dictionary.LowCardinalityColumn.AsColumn | src/types/column/low_cardinality.rs:331-334 | As a node of the column tree it is well-formed and has the same rows, so the codec theorems apply |
| Dictionary.FromValues | src/types/column/mod.rs:257-263 | A column grown from empty by any sequence of pushes holds the stored values in order, through every widening, over a dictionary of first occurrences; it panics exactly when one of them cannot be hashed or is not of the type |
| Dictionary.FlagsNameWidth | src/types/column/low_cardinality.rs:59-75 | The saved flags are 0x600 and the code of the width, and pass the checks of the loader |
| Dictionary.HashableExactly | src/types/value.rs:58-82 | Strings, dates and integers can be hashed, no other inner type |
| Dictionary.WiderDoubles | src/types/column/low_cardinality.rs:123-141 | Widening doubles the width of the codes, up to eight bytes |
| Dictionary.ExactStep | src/types/column/low_cardinality.rs:318-328 | Without loss, a value the map does not know is not in the dictionary, so entries stay distinct and all used |
| Dictionary.PushedRow | src/types/column/low_cardinality.rs:145-155 | The row of a pushed code, and that a new entry whose cut code still reads right has a code that fits |
| Dictionary.StoredAlike | src/types/column/fixed_string.rs:77-83 | For every length n, nothing and n zeros are different values stored alike in a FixedString(n), and pushing both makes the same entry twice |
| Dictionary.DistinctExactly | src/types/column/low_cardinality.rs:310-329 | Entries are distinct for every sequence of pushes if and only if the inner type stores values without loss |
| Dictionary.DictLossless | src/types/column/low_cardinality.rs:318-328 | Without loss the dictionary lists exactly the different values pushed |
| Dictionary.UnhashableValue | src/types/value.rs:61-81 | A UUID is of its column's type and cannot be pushed |
| Dictionary.CutPush | src/types/column/low_cardinality.rs:145-155 | A value with code 256, new or known, pushed under an 8-bit index with room for rows, is read back as the first entry |
| Dictionary.LosesValue | src/types/column/low_cardinality.rs:145-155 | A concrete loaded column into which 256 is pushed twice and read back as 0 twice |
| Packets.PacketMono | src/binary/parser.rs:35-51 | A packet parsed, or an error met, stays the same when bytes are added behind, for every kind of packet and revision |
| Packets.ParsePacket | src/binary/parser.rs:35-190 | The parser over the shared reader answers what the reference parser answers and leaves the cursor behind the packet |
| Packets.TakeHello | src/binary/parser.rs:78-117 | Time zone, display name and patch follow the revision that the greeting announces; an unknown zone is an error |
| Packets.HelloAt | src/binary/parser.rs:78-117 | A greeting is read as what its server wrote, with defaults for the fields its revision lacks, from exactly its bytes; an unknown zone is refused |
| Packets.TakeProgress | src/binary/parser.rs:119-154 | The optional counters follow the known revision |
| Packets.ProgressAt | src/binary/parser.rs:119-154 | Progress is read as written, with zeros for the counters the revision lacks |
| Packets.ProfileInfoAt | src/binary/parser.rs:156-168 | Profile info comes back, flags included |
| Packets.TableColumnsAt | src/binary/parser.rs:170-178 | Table columns come back |
| Packets.ExceptionAt | src/binary/parser.rs:180-190 | An exception comes back with code and texts |
| Packets.PacketAt | src/binary/parser.rs:37-49 | Behind the tags 3, 6, 11 and 2 progress, profile info, table columns and exceptions come back, from exactly their bytes |
| Packets.BareAt | src/binary/parser.rs:39-48 | The byte 4 is a pong and the byte 5 the end of the stream |
| Packets.HelloPacketAt | src/binary/parser.rs:38-38 | Behind the tag 0 the greeting comes back |
| Packets.UnknownExactly | src/binary/parser.rs:37-50 | A tag is unknown if and only if it is none of 0 to 8, 11 and 14 |
| Packets.TakeTableBlock | src/binary/parser.rs:53-76 | No block before the server has said hello |
| Packets.DataPacketAt | src/binary/parser.rs:44-76 | Behind the tags 1, 7 and 8 a written block is parsed as data and behind 14 as profile events, from exactly its bytes, and refused before the greeting |
| Packets.Bind | src/types/mod.rs:175-187 | Exactly greeting, pong and end of stream carry the transport away |
| Transport.Receiver.PollNext | src/io/transport.rs:287-323 | The answer of every poll is determined by buffer and arrivals; however the bytes are split, what is emitted is a prefix of decoding the whole stream, all of it when the poll finds nothing, and received bytes are emitted packets and buffer; up to the first parse error |
| Transport.Receiver.TryParse | src/io/transport.rs:157-198 | Only a whole packet or a parse error takes bytes out of the buffer, and a greeting sets time zone and revision |
| Transport.TakeMore | src/io/transport.rs:157-198 | Packets taken from a stream are taken from every longer stream, with the new bytes behind the rest |
| Transport.TakeSuffix | src/io/transport.rs:185-195 | The rest is the end of what was received; each packet takes at least a byte |
| Transport.TakenAll | src/io/transport.rs:287-323 | When no further packet can be parsed, those taken are all packets of the stream |
| Transport.LearnsGreeting | src/io/transport.rs:165-171 | A greeting sets time zone and revision, and no other packet changes what is known |
| Transport.PacketsReturn | src/io/transport.rs:157-198 | Any packets a server writes leave the stream as they were written, with the bytes behind them left |
| Transport.ConversationReturns | src/io/transport.rs:157-198 | A new connection reads the greeting, then every packet in the announced revision |
| Transport.Sender.Send | src/io/transport.rs:263-280 | However much the socket takes each time, commands are written in order without loss, the stream is ready only when all are, and a socket that takes everything gets everything |
| PacketStream.PacketStream.PollNext | src/io/transport.rs:357-430 | The transport is in the stream or gone, leaves only inside a packet that carries it and once; afterwards the stream has ended for good; a done stream hands it out |
| PacketStream.PacketStream.ReadBlock | src/io/transport.rs:327-347 | The outcome is that of reading to the first decisive packet: a block is followed by the transport and the end, and it panics exactly when the connection closes first |
| PacketStream.PacketStream.FirstDecides | src/io/transport.rs:327-347 | Progress, profile, table columns and profile events are passed over, and the first other answer decides: block, end, exception, unexpected packet, error, or a panic on a closed connection |
| PacketStream.PacketStream.Unsent | src/io/transport.rs:357-430 | Nothing is received before the command is sent, and a failure to send is an error |
| PacketStream.PacketStream.TakeTransport | src/io/transport.rs:349-351 | Hands out the transport if it has not gone |
| Session.Client.Clear | src/io/transport.rs:102-125 | Drains exactly what a dropped stream left and gives the transport back if and only if the old answer ends without exception before the connection breaks |
| Session.Client.Ping | src/lib.rs:379-415 | The pong read is its own; it succeeds if and only if the unread rest can be drained and the pong arrives, and on failure the transport is gone |
| Session.Client.CheckConnection | src/lib.rs:642-660 | Panics exactly on a handle that is not attached; else its answer, and how the handle is bound then, are those of `Session.Probed`, and when it is healthy the handle is attached and nothing is unread |
| Session.ProbedExactly | src/retry_guard.rs:11-87 | A check succeeds if and only if the transport of the handle answers its ping, or that of a later reconnect does before too many reconnects have failed; it gives up only after as many failed reconnects as are allowed |
| Session.Client.Execute | src/lib.rs:454-499 | Every packet read was sent for the command; with a ping it panics or fails exactly with the check, without one it fails on a missing or undrainable transport, and else its outcome is that of the answer |
| Session.Client.SendAndRead | src/lib.rs:475-491 | Succeeds if and only if the answer is one of blocks and progress, ends, and arrives; panics if and only if the connection closes after blocks and progress only |
| Session.Client.StreamBlocks | src/types/query_result/mod.rs:93-112 | Panics exactly on a handle that is not attached; on an attached one it opens if and only if the check succeeds or, without a ping, there is a transport; with a ping, or nothing unread, the stream reads its own answer; else its next packet is an older one |
| Session.BlockStream.Next | src/types/query_result/stream_blocks.rs:80-145 | Passes over progress, yields blocks, gives the transport back clean and attaches the handle at the end; a closed connection is an error for good, a broken one and an unexpected packet leave it reading, an exception finishes it |
| Session.BlockStream.Drop | src/types/query_result/stream_blocks.rs:38-57 | Dropped while reading, the handle is attached and the transport goes back marked, with exactly the unread rest of this answer; after a closed connection or an exception the transport is dropped |
| Session.PanicsAfterException | src/types/query_result/stream_blocks.rs:127-135 | After a server exception in a stream, the next stream of the handle panics |
| PoolSteps.PoolSafety | src/pool/mod.rs:42-84 | In every reachable state, for any number of actors in any interleaving, slots are conserved and at most `max`, no guard has fired, no push was refused, and each checkout has passed on its slot once or is held by one actor |
| PoolSteps.InvStep | src/pool/mod.rs:237-270 | Every atomic operation of every actor keeps slot conservation |
| PoolSteps.BalancedOpen | src/pool/mod.rs:350-400 | Each operation of the polling loop moves ownership of a slot and nothing else |
| PoolSteps.BalancedTake | src/pool/mod.rs:402-412 | The same for taking a connection, the compare-exchange loop and parking |
| PoolSteps.BalancedReturn | src/pool/mod.rs:414-450 | The same for the return of a handle |
| PoolSteps.BalancedDrop | src/io/transport.rs:128-140 | The same for a transport dropped outside a handle |
| PoolSteps.NoBranchOfLoss | src/pool/mod.rs:350-450 | Queues have room whenever an actor is about to push, guards find what they look for, and a dropped transport is never flagged as inside |
| PoolSteps.AtRest | src/pool/mod.rs:41-50 | When all actors rest, nothing is ongoing, every slot is a pending open or an idle connection, and every checkout is settled |
| PoolSteps.LostWakeup | src/pool/mod.rs:258-269 | A concrete run after which a waker waits although the only slot is free and nobody is active |
| PoolSteps.NoLostWakeup | src/pool/mod.rs:237-270 | In every run in which no drain of wakers ends while another request stands between finding no idle connection and parking, a waiter is left at rest only when nothing is idle and all slots are taken |
| PoolSteps.WaitsStep | src/pool/mod.rs:86-90 | Each such step keeps this: somebody is about to wake the waiters, or all slots are taken and what requests on their way to park have seen is still so |
| PoolAlone.ReturnIs | src/pool/mod.rs:414-450 | In a run in which one actor returns a handle undisturbed, the connection is kept if and only if the handle is attached and fewer than `min` are idle, else its slot comes free; the checkout is settled and nobody waits |
| PoolAlone.DropIs | src/pool/mod.rs:42-50 | The same for a transport dropped outside a handle: its slot comes free |
| PoolAlone.PollIs | src/pool/mod.rs:237-270 | An undisturbed poll asks at most four pending opens; then the whole state is what their answers, the idle connections and the free slots make of it |
| PoolAlone.UseEnds | src/pool/mod.rs:237-270 | Every use of the pool ends when its actor runs alone, whatever the pending opens answer |
| PoolAlone.Finishes | src/pool/mod.rs:258-269 | So does every use that was interrupted anywhere, in any state |
| PoolAlone.ExchangeExactly | src/pool/mod.rs:56-73 | The exchange gains a slot exactly when the count is the one seen and below `max` and it does not fail for no reason; else the actor goes on with the count it has found, or parks when it saw `max` |
| PoolRefines.ReturnAgrees | src/pool/mod.rs:414-450 | An undisturbed return by single steps does what the return of the coarse pool does |
| PoolRefines.DropAgrees | src/pool/mod.rs:42-50 | The same for a drop |
| PoolRefines.PollAgrees | src/pool/mod.rs:237-270 | The same for a poll whose pending opens answer alike; one gives a handle if and only if the other does |
| Pool.Fairness | src/pool/mod.rs:350-359 | A pending open at position p is polled by the (p/4 + 1)-th call at the latest, whatever others answer and whatever is appended |
| Pool.ConnectionPool.HandleFutures | src/pool/mod.rs:350-400 | At most four are polled, pending ones rotate to the end, and all waiters are woken if and only if a connection came in or a slot came free |
| Pool.ConnectionPool.Poll | src/pool/mod.rs:237-270 | The whole new state of one poll; a request is parked if and only if nothing is idle and opens and checkouts number `max` |
| Pool.ConnectionPool.TakeConn | src/pool/mod.rs:402-412 | The oldest idle connection is checked out |
| Pool.ConnectionPool.ReturnConn | src/pool/mod.rs:414-450 | Kept if attached and below `min`, else its slot comes free; every waiter is woken |
| Pool.ConnectionPool.ReleaseConn | src/pool/mod.rs:42-50 | The slot comes free and every waiter is woken |
| Pool.ConnectionPool.WakeTasks | src/pool/mod.rs:86-90 | Every parked waker is woken, in order |
| Decimal.EqIsSame | src/types/decimal.rs:123-139 | The comparison panics exactly on scales more than 18 apart; equal numbers always compare equal; the answer is right whenever the product stays in 64 bits |
| Decimal.EqExact | src/types/decimal.rs:123-139 | Comparing a number with those of a scale not below its own is right for all of them, on either side, if and only if its scaled product stays in 64 bits |
| Decimal.WrappedEquality | src/types/decimal.rs:123-139 | 2^46 with scale 0 compares equal to 0 with scale 18 |
| Decimal.ScaleUp | src/types/decimal.rs:251-254 | Panics exactly beyond 18 digits; scaling up keeps the number if and only if the product fits 64 bits |
| Decimal.ScaleDown | src/types/decimal.rs:246-249 | Panics exactly beyond 18 digits; scaling down cuts toward zero by less than one unit in the last place, and keeps the number if and only if nothing is cut |
| Decimal.PrecisionFits | src/types/decimal.rs:111-121 | A magnitude below 10^P fits the integer chosen for P |
| Decimal.NarrowestBits | src/types/decimal.rs:111-121 | The integer of a column is the narrower one of 32 and 64 bits that holds every magnitude below 10^P |
| Decimal.CastRoundTrip | src/types/column/decimal.rs:215-251 | Cast, saved and read back, a value is the cast one if and only if it fits the integer of the column, which a magnitude below 10^P does |
| Decimal.CastKeepsNumber | src/types/column/decimal.rs:242-251 | When the scale does not shrink, the number read back is the same if and only if the rescaled magnitude fits |
| Decimal.PushedScale | src/types/column/decimal.rs:153-168 | A pushed decimal keeps its number if and only if the scales agree or it is zero |
| Decimal.SaveDecimals | src/types/column/decimal.rs:215-232 | The loop appends the bytes of every cast value in order, or panics exactly on a value whose scale is too far from the column's |
| QueryParams.UnquoteQuote | src/types/query.rs:15-50 | Quoting has a left inverse for every string, and the first unescaped quote is the closing one, whatever stands behind |
| QueryParams.QuotedIsPlain | src/types/query.rs:15-50 | No line break, tab or zero byte stands in a quoted value, and nothing is escaped but these, quotes and backslashes |
| QueryParams.WriteQuoted | src/types/query.rs:15-50 | The loop makes the quoted form |
| QueryParams.ValidateName | src/types/query.rs:85-98 | Accepts exactly identifiers that do not begin with the reserved prefix |
| QueryParams.NameExactly | src/types/query.rs:85-98 | Names are ASCII identifiers that do not begin with `param_` |
| QueryParams.ParamsRoundTrip | src/types/cmd.rs:192-199 | The written list is read back, with exactly its bytes, if and only if no name is empty |
| QueryParams.ReadUpToEmpty | src/types/cmd.rs:192-199 | Any list is read up to its first empty name |
| QueryParams.Query.WithParameter | src/types/query.rs:137-148 | A valid name is appended with its value, any other leaves the list alone |
| QueryParams.Query.SerializeParams | src/types/cmd.rs:192-199 | The list of a query is written so that it is read back as it was bound |

## Left out

- Compressed blocks (LZ4, CityHash): `compress = false` throughout.
- Sockets, TLS, timers, the executor, DNS, logging and options: what the network and the pool answer are parameters of the methods.
- Enum8, Enum16, DateTime, DateTime64 and SimpleAggregateFunction columns and their branches of the dispatch chain: their names carry free text or foreign time zone tables.
- Floats, dates and addresses beyond fixed-width cells; the conversions between Rust values and cells.
- Time zone parsing: a set of known names stands for it.
- The columns of a tree are values: arrays and nullables that share an inner column, and updates in place inside the tree, are not captured; encoder, reader, iterators, pool, string pool and low-cardinality column are classes.
- Slices.RowsReloaded: the rows of a map column are compared as stored entries; two different lists of entries may be collected into the same table. `Chunks.ChunksRoundTrip` and `BlockCodec.BlockRoundTrip` compare rows likewise, and equal entries make equal tables.
- Panics and aborts of allocations for lengths and counts read from the wire: the source reserves memory before the bytes have come.
- Low-cardinality, decimal and chunk columns below a pushed array, map or nullable: `Push` covers the other nestings, `Dictionary` and `Decimal` the first two at the top.
- Push.PushValue: a fixed-width value is its bytes, so a push of another scalar of the same width is not told apart; a null is one of the inner type of its column.
- Type names outside ASCII: slices inside a character, and white space other than ASCII in trimming.
- Adapters for casting nullable and fixed-string columns on insertion, and `insert` itself.
- Delivery of packets that arrive together with the end of the stream: the transport ends without parsing them.
- Session.Client.CheckConnection: a check goes on for as long as reconnects succeed and pings fail, since a reconnect that succeeds is not counted as an attempt; it is followed up to the end of the given answers.
- Session.BlockStream.Next: every block counts as yielded; skipping the first one and empty ones is not modelled.
- PoolSteps.PoolSafety: safety only; waiters are covered by `PoolSteps.NoLostWakeup`, and progress by `PoolAlone.UseEnds` and `PoolAlone.Finishes` for actors that are not disturbed, not under every schedule.
- A server that shortens the answer to a cancelled query is one that had the shorter answer from the start; parse errors inside `Session` are not modelled.
- Printing of decimals, the error-code table, `Debug` and `Display`.
