# PogoPickler in Dafny

A model of `PogoPickler`, the PoGoEncTool class that serialises Pokémon GO
encounter data into a BinLinker container tagged `"go"`, with proofs of its
properties.

The data:

- One encounter group (`PogoPoke`) is a species, a form and an ordered list
  of appearance windows (`PogoEntry`).
- An appearance window has an optional start date, an optional end date, a
  shiny rule and a type.

The full format:

- Each group becomes one container entry.
- The entry starts with a 2-byte little-endian header holding the low 16 bits
  of `Species | (Form << 11)`.
- After the header come 10 bytes per appearance: start int32, end int32, the
  shiny code (1, 2 or 3), and the type byte.
- A missing date is written as 0, and a 0 reads back as a missing date.
- Reading takes `(length - 2) / 10` appearances and ignores any shorter
  remainder.

The LGPE format:

- It has a fixed roster of 170 (species, form) keys:
  - species 1 to 150, 808 and 809 with form 0;
  - then 18 Alolan species with form 1.
- Each key's group is written as the header, then two bytes (shiny code,
  type) for each appearance whose (shiny rule, type) pair has not appeared
  earlier in that group.
- No dates are written.

Modules:

- `Pogo` (`pogo.dfy`): the values, the exceptions as a `Result`, and
  `MapAll`.
  - `MapAll` is a C# loop over a list that aborts at the first exception.
- `Binary` (`binary.dfy`): .NET's little-endian `BinaryWriter` and
  `BinaryReader` primitives on byte sequences.
  - Also C#'s sign extension of a `short` and its arithmetic `>>` on `int`.
  - C# `int` and `short` values are bit-vectors, so `|`, `&`, `<<` and the
    narrowing casts behave as in C#.
- `Records` (`records.dfy`): 10-byte records laid end to end and cut apart
  again.
- `Codec` (`codec.dfy`): one group in the full format.
  - The specification functions `EncodeGroup` and `DecodeGroup`, and their
    laws.
  - The imperative `Write`, `GetBinary`, `ReadAppearance` and `GetPogoPoke`,
    each proved equal to its specification function.
- `Lgpe` (`lgpe.dfy`): the LGPE projection.
  - `Kept` is the deduplication, characterised by its lemmas.
  - `KeySet` is the `HashSet<ushort>`, a class that `WriteLGPE` mutates.
  - Also `WriteEntryLGPE`, the roster, and `GetPickleLGPE`.
  - Its loop over the roster is the method `WriteEntriesLGPE`.
- `Pickle` (`pickle.dfy`): `ReadPickle`, `WritePickle`, `GetEntries` and
  `WritePickleLGPE`, and the list-level round trip.

Representation choices:

- A stream is a byte sequence; a reader also has a cursor.
- An exception is an `Err` value, and an operation that would throw returns
  it.
- `PogoEncounterList` is its list of groups.
- Its `Add` appends a group.
- Its `GetDetails` is a function-typed parameter.

Where the intended behaviour of the format and the code disagree, the model
follows the code:

- Round trip of a group:
  - The header is laid out as 11 bits of species and 5 bits of form, so a
    group is meant to survive a write-then-read round trip for any form from
    0 to 31.
  - The code reads the species as `sf & 0x7FFF` and the form as `sf >> 11`,
    on the sign-extended short.
  - So a form from 1 to 15 also appears in bits 11 to 14 of the species read
    back.
  - A form from 16 to 31 reads back as a negative form.
  - The model proves what the code does:
    - `Codec.HeaderRoundTrip`: the header survives exactly when the form is 0.
    - `Codec.GroupRoundTrip`: what comes back otherwise.
- Length check: an entry whose length is not 2 + 10k is not a well-formed
  group, but the code does not reject one; it ignores the remainder, and so
  does the model: `Codec.TrailingBytesIgnored`.

## Model

| member | source | states |
|---|---|---|
| Pogo.MapAll | Util/PogoPickler.cs:47-53 | A loop that applies an operation to each element in order: it succeeds exactly when every element succeeds. It then has one result per element, in order. Otherwise it fails with the error of the first failing element. |
| Binary.WriteUInt16 | Util/PogoPickler.cs:61 | `bw.Write((ushort)sf)` writes two bytes. |
| Binary.WriteInt32 | Util/PogoPickler.cs:88-89 | `bw.Write(int)` writes four bytes. |
| Binary.WriteReadUInt16 | Util/PogoPickler.cs:28 | The 16 bits written by `Write(ushort)` are read back unchanged by `ReadInt16`. |
| Binary.ReadThenWriteInt16 | Util/PogoPickler.cs:28 | Any two bytes read as a short are written back identically. |
| Binary.WriteReadInt32 | Util/PogoPickler.cs:72-73 | An int written and read back is unchanged. It is written as four zero bytes exactly when it is 0. |
| Binary.ReadInt16 | Util/PogoPickler.cs:28 | `BinaryReader.ReadInt16`: the 16 bits of two bytes, low byte first. It has no contract of its own; `Binary.WriteReadUInt16` and `Binary.ReadThenWriteInt16` characterise it as the inverse of WriteUInt16. |
| Binary.ReadInt32 | Util/PogoPickler.cs:72-73 | `BinaryReader.ReadInt32`. It has no contract of its own; `Binary.WriteReadInt32` and `Binary.ReadThenWriteInt32` characterise it as the inverse of WriteInt32. |
| Binary.ArithShiftRight | Util/PogoPickler.cs:32 | C#'s `>>` on an int, an arithmetic shift. It has no contract of its own; `Codec.HeaderDecode` and `Codec.HeaderDecodeRange` state what it yields on a header. |
| Binary.ReadThenWriteInt32 | Util/PogoPickler.cs:72-73 | Any four bytes read as an int are written back identically. |
| Binary.SignExtend16 | Util/PogoPickler.cs:28-33 | Widening a short to an int keeps its low 16 bits. The upper 16 bits are all clear for a non-negative short and all set for a negative one. |
| Codec.PogoToHex | Util/PogoPickler.cs:95-104 | Succeeds exactly for Random, Always and Never, giving a code in 1..3. Any other enum value throws ArgumentOutOfRange. |
| Codec.HexToPogo | Util/PogoPickler.cs:106-115 | Succeeds exactly for the bytes 1..3, giving a named rule. Any other byte throws ArgumentOutOfRange. |
| Records.WriteSize | Util/PogoPickler.cs:68 | The record width `2 * sizeof(int) + 2` = 10 bytes. A constant; `Codec.EncodeGroup`, `Codec.DecodeGroup` and `Codec.EncodeGroupLayout` state the layout it gives. |
| Codec.PackHeader | Util/PogoPickler.cs:60-61 | The low 16 bits of Species OR (Form << 11), as `(ushort)sf`; WriteEntryLGPE writes the same header. It has no contract of its own; `Codec.HeaderLayout` states its bit layout and `Codec.HeaderRoundTrip` what reads back. |
| Codec.HeaderSpecies | Util/PogoPickler.cs:31 | `sf & 0x7FFF` on the sign-extended short. It has no contract of its own; `Codec.HeaderDecode` and `Codec.HeaderDecodeRange` state its value. |
| Codec.HeaderForm | Util/PogoPickler.cs:32 | `sf >> 11` on the sign-extended short. It has no contract of its own; `Codec.HeaderDecode` and `Codec.HeaderDecodeRange` state its value, in -16..15. |
| Codec.ShinyCodeBijection | Util/PogoPickler.cs:95-115 | `PogoToHex(s) == code` exactly when `HexToPogo(code) == s`: the two are inverse bijections. |
| Codec.HeaderLayout | Util/PogoPickler.cs:60-61 | For species < 0x800 and form < 32, header bits 0-10 hold the species and bits 11-15 the form. |
| Codec.HeaderDecodeRange | Util/PogoPickler.cs:28-33 | Any header decodes to a species below 0x8000 and a form in -16..15. These pack back into the same header. |
| Codec.HeaderDecode | Util/PogoPickler.cs:28-33 | For an encoded header (species < 0x800, form < 32): the species read back gains the form's low 4 bits at bit 11. The form read back is `form` if below 16, else `form - 32`. |
| Codec.HeaderRoundTrip | Util/PogoPickler.cs:28-33 | Within those ranges, species and form both survive exactly when the form is 0. |
| Codec.HeaderReencode | Util/PogoPickler.cs:28-33 | Any 2 header bytes, decoded, packed and written again, give the same 2 bytes. |
| Codec.EncodeDate | Util/PogoPickler.cs:88-89 | `date?.Write() ?? 0`. It has no contract of its own; `Codec.DateSentinel` states when it gives the zero sentinel. |
| Codec.DecodeDate | Util/PogoPickler.cs:81-82 | `v == 0 ? null : new PogoDate(v)`. It has no contract of its own; `Codec.DateSentinel` and `Codec.AppearanceRoundTrip` state how it inverts EncodeDate. |
| Codec.EncodeAppearance | Util/PogoPickler.cs:86-93 | Succeeds exactly for a named shiny rule; otherwise it throws ArgumentOutOfRange. The record is 10 bytes, with byte 8 a code in 1..3 and byte 9 the type. |
| Codec.DecodeAppearance | Util/PogoPickler.cs:70-84 | Succeeds exactly when 10 bytes are present and byte 8 is in 1..3. A bad code throws ArgumentOutOfRange once 9 bytes are present. Too few bytes throws EndOfStream. The type is byte 9. |
| Codec.DecodeAppearanceFront | Util/PogoPickler.cs:70-84 | Reading an appearance looks only at its first 10 bytes. |
| Codec.AppearanceRoundTrip | Util/PogoPickler.cs:70-93 | An appearance with a named rule and no date packing to 0 is written and read back unchanged. |
| Codec.AppearanceReencode | Util/PogoPickler.cs:70-93 | Every 10 bytes that decode are written back byte for byte. |
| Codec.DateSentinel | Util/PogoPickler.cs:81-89 | A date is written as four zero bytes exactly when it is absent or packs to 0. It reads back as absent in exactly that case, and otherwise unchanged. |
| Codec.EncodeAppearances | Util/PogoPickler.cs:62-63 | The appearance records take 10 bytes per appearance. The only error is ArgumentOutOfRange. |
| Codec.EncodeAppearancesOk | Util/PogoPickler.cs:62-63 | The records are written exactly when every appearance has a named shiny rule. |
| Codec.EncodeGroup | Util/PogoPickler.cs:55-66 | An encoded group is 2 + 10n bytes for n appearances. The only error is ArgumentOutOfRange. |
| Codec.EncodeGroupOk | Util/PogoPickler.cs:55-66 | A group is written exactly when all its shiny rules are named. |
| Codec.EncodeGroupHeader | Util/PogoPickler.cs:60-61 | Bytes 0-1 of an encoded group are the low 16 bits of Species OR (Form << 11), low byte first. |
| Codec.EncodeGroupLayout | Util/PogoPickler.cs:55-66 | Appearance i occupies bytes 2 + 10i to 2 + 10i + 9, and those bytes are its own record. |
| Codec.DecodeAppearances | Util/PogoPickler.cs:35-37 | Reading `count` records gives `count` appearances or throws ArgumentOutOfRange. |
| Codec.DecodeAppearancesOk | Util/PogoPickler.cs:35-37 | The records are read exactly when the shiny byte of each is in 1..3. |
| Codec.DecodeGroup | Util/PogoPickler.cs:23-39 | Fewer than 2 bytes throws EndOfStream. Otherwise the only error is ArgumentOutOfRange. A decoded group has `(length - 2) / 10` appearances. |
| Codec.DecodeGroupOk | Util/PogoPickler.cs:23-39 | A group is read exactly when the header is present and every complete record has a shiny byte in 1..3. |
| Codec.TrailingBytesIgnored | Util/PogoPickler.cs:35 | Appending fewer than 10 bytes to an entry of length 2 + 10k does not change what is read. |
| Codec.AppearancesRoundTrip | Util/PogoPickler.cs:35-37 | Well-formed appearances, written and read back with their count, come back unchanged. |
| Codec.GroupRoundTrip | Util/PogoPickler.cs:23-66 | A group of well-formed appearances comes back with its appearances unchanged. Its species and form come back as the header carries them. |
| Codec.GroupRoundTripExact | Util/PogoPickler.cs:23-66 | For species < 0x800 and form < 32, a well-formed group comes back equal to itself exactly when its form is 0. |
| Codec.AppearancesReencode | Util/PogoPickler.cs:35-37 | Decoded records re-encode to the bytes they came from. |
| Codec.GroupReencode | Util/PogoPickler.cs:23-66 | Every entry of length 2 + 10k that decodes is re-encoded byte for byte. |
| Codec.Write | Util/PogoPickler.cs:86-93 | Appends exactly the appearance's 10-byte record to the writer's bytes, or throws ArgumentOutOfRange. |
| Codec.GetBinary | Util/PogoPickler.cs:55-66 | The loop's output equals EncodeGroup, including the exception. |
| Codec.ReadAppearance | Util/PogoPickler.cs:70-84 | Reading at a cursor gives DecodeAppearance of the rest of the stream. On success the cursor advances by 10. |
| Codec.GetPogoPoke | Util/PogoPickler.cs:23-39 | The loop's result equals DecodeGroup, including both exceptions. |
| Lgpe.KeyOf | Util/PogoPickler.cs:177 | The key an appearance is filed under, as the (shiny rule, type) pair. It has no contract of its own; see the Lgpe.WriteLGPE line under Left out. |
| Lgpe.Kept | Util/PogoPickler.cs:168-180 | The appearances WriteEntryLGPE writes. It has no contract of its own. `Lgpe.KeptPrefix` and `Lgpe.KeptFirstOccurrences` place the first occurrence of each pair right after what the earlier appearances kept, so it holds the first occurrences in input order. `Lgpe.KeptKeys` and `Lgpe.KeptDistinct` show it holds nothing else. |
| Lgpe.KeptKeys | Util/PogoPickler.cs:175-180 | Deduplication loses no (shiny rule, type) pair: the kept appearances have exactly the pairs of the input. |
| Lgpe.KeptDistinct | Util/PogoPickler.cs:175-180 | No two kept appearances share a pair. |
| Lgpe.KeptSubsequence | Util/PogoPickler.cs:168-180 | The kept appearances are the input with some appearances deleted, so input order is kept. |
| Lgpe.KeptPrefix | Util/PogoPickler.cs:168-180 | What the first m appearances keep is a prefix of what the whole list keeps: later appearances only append records. |
| Lgpe.KeptFirstOccurrences | Util/PogoPickler.cs:175-180 | An appearance whose pair has not occurred earlier is kept, at the position right after the records kept from the appearances before it. |
| Lgpe.KeptLength | Util/PogoPickler.cs:168-180 | No more appearances are kept than were given. |
| Lgpe.KeptDistinctUnchanged | Util/PogoPickler.cs:175-180 | A list whose pairs are already distinct is kept whole. |
| Lgpe.KeptIdempotent | Util/PogoPickler.cs:175-180 | Deduplicating twice is deduplicating once. |
| Lgpe.LgpeRecord | Util/PogoPickler.cs:181-182 | Succeeds exactly for a named rule and gives 2 bytes: the code, which reads back as the rule, then the type. Otherwise it throws ArgumentOutOfRange. |
| Lgpe.EncodeEntryLGPE | Util/PogoPickler.cs:162-173 | The only error is ArgumentOutOfRange. |
| Lgpe.EncodeEntryLGPEOk | Util/PogoPickler.cs:162-183 | An LGPE group is written exactly when every kept appearance has a named shiny rule. |
| Lgpe.EncodeEntryLGPELayout | Util/PogoPickler.cs:162-183 | An LGPE group is the header, then 2 bytes (code, type) per kept appearance in order. There are no date bytes, and the length is 2 + 2·kept ≤ 2 + 2·appearances. |
| Lgpe.DedupExample | Util/PogoPickler.cs:175-182 | Example: (Random,1), (Always,2), (Random,1), (Never,3) keeps the 1st, 2nd and 4th appearances. The body bytes are 1,1,2,2,3,3. |
| Lgpe.KeySet.constructor | Util/PogoPickler.cs:164 | A new key set is empty, one per group. |
| Lgpe.KeySet.Contains | Util/PogoPickler.cs:178 | `HashSet.Contains`: membership in the set's keys. |
| Lgpe.KeySet.Add | Util/PogoPickler.cs:180 | Adding a key adds it and nothing else. |
| Lgpe.WriteLGPE | Util/PogoPickler.cs:175-183 | A key already in the set leaves the bytes unchanged. Otherwise the key is added, even when the write then throws, and the 2-byte record is appended. |
| Lgpe.WriteEntryLGPE | Util/PogoPickler.cs:162-173 | The loop with its own key set produces exactly EncodeEntryLGPE, including the exception. |
| Lgpe.AlolanSpecies | Util/PogoPickler.cs:126-146 | The 18 national numbers of Rattata to Marowak cast by `(byte)`. A constant; `Lgpe.LgpeKeyOrder` and `Lgpe.LgpeKeysDistinct` state its place in the roster. |
| Lgpe.LgpeKeys | Util/PogoPickler.cs:125-151 | The roster `noForm` with form 0 followed by `forms` with form 1. It has no contract of its own; `Lgpe.LgpeKeyOrder` states it in closed form. |
| Lgpe.LgpeKeyOrder | Util/PogoPickler.cs:125-151 | The roster has 170 keys: (1..150, 0), (808, 0), (809, 0), then the 18 Alolan species with form 1, in that order. |
| Lgpe.LgpeKeysDistinct | Util/PogoPickler.cs:125-151 | No roster key occurs twice. |
| Lgpe.LgpeGroups | Util/PogoPickler.cs:148-151 | 170 looked-up groups in closed form: group i is the lookup of (i + 1, 0) for i < 150, then (808, 0), (809, 0), then (Alolan species j, 1) for j < 18. |
| Lgpe.PickleLGPE | Util/PogoPickler.cs:123-160 | The entries GetPickleLGPE returns. It has no contract of its own; `Lgpe.PickleLGPEShape` states its shape. |
| Lgpe.PickleLGPEShape | Util/PogoPickler.cs:123-160 | The LGPE pickle has 170 entries. Entry i is the written group for roster key i. |
| Lgpe.GetPickleLGPE | Util/PogoPickler.cs:123-160 | Equals PickleLGPE for the given lookup. |
| Lgpe.WriteEntriesLGPE | Util/PogoPickler.cs:151-157 | Filling the result array entry by entry gives one written group per group in order, or the first exception. |
| Pickle.Identifier | Util/PogoPickler.cs:12 | The container identifier `"go"` that WritePickle and WritePickleLGPE pack under and ReadPickle unpacks with. A constant; `Pickle.PickleRoundTrip` uses it on both sides. |
| Pickle.DecodePickle | Util/PogoPickler.cs:14-21 | A decoded pickle has one group per container entry. |
| Pickle.PickleRoundTrip | Util/PogoPickler.cs:14-66 | If unpacking undoes packing, reading back a written list of well-formed groups gives every group back in order. Species and form come back as the header carries them. |
| Pickle.PickleRoundTripExact | Util/PogoPickler.cs:14-66 | Under the same condition, a list whose groups all have form 0 and species < 0x800 comes back equal to itself. |
| Pickle.EncodePickle | Util/PogoPickler.cs:41-53 | The container WritePickle returns. It has no contract of its own; `Pickle.PickleRoundTrip` states what reads back from it. |
| Pickle.EncodePickleLGPE | Util/PogoPickler.cs:117-121 | The container WritePickleLGPE returns. It has no contract of its own; it packs `Lgpe.PickleLGPE`, whose shape `Lgpe.PickleLGPEShape` states. |
| Pickle.GetEntries | Util/PogoPickler.cs:47-53 | The array fill gives GetBinary of each group, in order, or the first exception. |
| Pickle.WritePickle | Util/PogoPickler.cs:41-45 | Packs the entries of GetEntries under "go". |
| Pickle.ReadPickle | Util/PogoPickler.cs:14-21 | The loop gives DecodePickle: GetPogoPoke of each unpacked entry, in order, or the first exception. |
| Pickle.WritePickleLGPE | Util/PogoPickler.cs:117-121 | Packs the entries of GetPickleLGPE under "go". |

## Left out

- BinLinker's `Pack` and `Unpack` are not part of this model. They are function parameters. The round-trip lemmas assume only that unpacking a packed list under the same identifier gives the list back.
- PogoDate is not part of this model. A present date is known only by the int its `Write()` packs it into, so its packing and any range checks are not modelled.
- The model does not cover the classes behind `PogoEncounterList` and `PogoPoke`:
  - `PogoEncounterList.GetDetails` is a total function parameter, so any side effect of the lookup is not modelled.
  - `PogoEncounterList.Add` and `PogoPoke.Add` are modelled as appending to a sequence.
- PogoType is kept as the byte it is cast to on the wire. A type value above 255, truncated by `(byte)`, is not distinguished from its low byte.
- MemoryStream, BinaryReader and BinaryWriter are byte sequences plus a cursor, so disposal and stream positions beyond that cursor are not modelled. Any exception other than EndOfStream and ArgumentOutOfRange is outside the model.
- The order of LINQ's lazy `GetDetails` calls is not modelled: they happen during `ToArray` in the source, but the lookup is pure here.
- Lgpe.WriteLGPE: files each appearance under the pair (shiny rule, type), not under the 16-bit value `(byte)Shiny | ((byte)Type << 8)`. The enum's underlying values are not part of this model. So an unnamed shiny value whose low byte equals a named rule's value is a different key here. In the source it collides with that rule's key and would be skipped silently instead of throwing.
- Codec.GroupRoundTrip: states the round trip the code achieves, not the intended one for every form from 0 to 31. See the note above on where the code and the intended behaviour disagree.
