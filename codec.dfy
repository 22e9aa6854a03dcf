/** The per-group record codec of PogoPickler: GetBinary and Write encode one
    encounter group, GetPogoPoke and ReadAppearance decode it.

    Wire layout of a group: a 2-byte header holding the low 16 bits of
    `Species | (Form << 11)`, then WriteSize (10) bytes per appearance:
    start int32, end int32, shiny code byte, type byte, all little-endian.
    An absent date is written as 0 and a 0 read back is an absent date. */
module Codec {
  import opened Binary
  import opened Pogo
  import opened Records

  // ---------------------------------------------------------------------
  // Shiny codes

  /** PogoToHex: Random, Always and Never are written as 1, 2 and 3; any
      other value of the enum throws. */
  function PogoToHex(s: PogoShiny): (r: Result<bv8>)
    ensures r.Ok? <==> !s.Unnamed?
    ensures r.Ok? ==> 1 <= r.value <= 3
    ensures r.Err? ==> r.error == ArgumentOutOfRange
  {
    match s
    case Random => Ok(1)
    case Always => Ok(2)
    case Never => Ok(3)
    case Unnamed(_) => Err(ArgumentOutOfRange)
  }

  /** HexToPogo: the codes 1, 2 and 3 are read back; any other byte throws. */
  function HexToPogo(code: bv8): (r: Result<PogoShiny>)
    ensures r.Ok? <==> 1 <= code <= 3
    ensures r.Ok? ==> !r.value.Unnamed?
    ensures r.Err? ==> r.error == ArgumentOutOfRange
  {
    match code
    case 1 => Ok(Random)
    case 2 => Ok(Always)
    case 3 => Ok(Never)
    case _ => Err(ArgumentOutOfRange)
  }

  /** The two conversions are inverse bijections between the three named
      shiny rules and the codes 1, 2, 3. */
  lemma ShinyCodeBijection(s: PogoShiny, code: bv8)
    ensures PogoToHex(s) == Ok(code) <==> HexToPogo(code) == Ok(s)
  {
  }

  // ---------------------------------------------------------------------
  // Group header

  /** The header GetBinary writes: `(ushort)(Species | (Form << 11))`, the
      C# int expression truncated to its low 16 bits. */
  function PackHeader(species: bv32, form: bv32): bv16
  {
    ((species | (form << 11)) & 0xFFFF) as bv16
  }

  /** For a species that fits in 11 bits and a form in 5 bits (species
      below 0x800, form below 32), bits 0-10 of the header hold the species and bits 11-15 the form. */
  lemma HeaderLayout(species: bv32, form: bv32)
    requires species < 0x800 && form < 32
    ensures PackHeader(species, form) & 0x7FF == species as bv16
    ensures PackHeader(species, form) >> 11 == form as bv16
  {
  }

  /** The species GetPogoPoke reads: `sf & 0x7FFF` on the sign-extended
      short, i.e. bits 0-14 of the header. */
  function HeaderSpecies(sf: bv16): bv32
  {
    SignExtend16(sf) & 0x7FFF
  }

  /** The form GetPogoPoke reads: `sf >> 11` on the sign-extended short, an
      arithmetic shift, so the result lies in -16..15. */
  function HeaderForm(sf: bv16): bv32
  {
    ArithShiftRight(SignExtend16(sf), 11)
  }

  /** What decoding makes of any header: a species below 0x8000 and a form
      in -16..15 (two's complement), which pack back into the same header. */
  lemma HeaderDecodeRange(sf: bv16)
    ensures HeaderSpecies(sf) < 0x8000
    ensures HeaderForm(sf) < 16 || HeaderForm(sf) >= 0xFFFF_FFF0
    ensures PackHeader(HeaderSpecies(sf), HeaderForm(sf)) == sf
  {
    if sf < 0x8000 {
      assert SignExtend16(sf) == sf as bv32;
    } else {
      assert SignExtend16(sf) == (sf as bv32) | 0xFFFF_0000;
    }
  }

  /** What decoding makes of an encoded header whose species fits in 11
      bits and whose form fits in 5 bits: the species keeps bits 0-3 of the form in its bits 11-14, and a form of
      16 or more comes back as form - 32. */
  lemma HeaderDecode(species: bv32, form: bv32)
    requires species < 0x800 && form < 32
    ensures HeaderSpecies(PackHeader(species, form)) == species | ((form & 0xF) << 11)
    ensures HeaderForm(PackHeader(species, form)) == if form < 16 then form else form - 32
  {
  }

  /** Hence, for a species below 0x800 and a form below 32, the header
      survives a round trip
      exactly when the form is 0. */
  lemma HeaderRoundTrip(species: bv32, form: bv32)
    requires species < 0x800 && form < 32
    ensures HeaderSpecies(PackHeader(species, form)) == species && HeaderForm(PackHeader(species, form)) == form
            <==> form == 0
  {
    HeaderDecode(species, form);
  }

  // ---------------------------------------------------------------------
  // Appearances

  /** `date?.Write() ?? 0`: the int written for an optional date. */
  function EncodeDate(d: MaybeDate): bv32
  {
    match d
    case Absent => 0
    case Present(p) => p
  }

  /** `v == 0 ? null : new PogoDate(v)`: the optional date read from an int. */
  function DecodeDate(v: bv32): MaybeDate
  {
    if v == 0 then Absent else Present(v)
  }

  /** An appearance that survives the codec unchanged: its shiny rule is a
      named one, and no present date packs to the sentinel 0. */
  predicate WellFormed(e: PogoEntry)
  {
    !e.Shiny.Unnamed? && e.Start != Present(0) && e.End != Present(0)
  }

  /** The 10 bytes Write puts out for one appearance; throws when the shiny
      rule is not a named one. */
  function EncodeAppearance(e: PogoEntry): (r: Result<seq<bv8>>)
    ensures r.Ok? <==> !e.Shiny.Unnamed?
    ensures r.Err? ==> r.error == ArgumentOutOfRange
    ensures r.Ok? ==> |r.value| == WriteSize && 1 <= r.value[8] <= 3 && r.value[9] == e.Type
  {
    var code :- PogoToHex(e.Shiny);
    Ok(WriteInt32(EncodeDate(e.Start)) + WriteInt32(EncodeDate(e.End)) + [code, e.Type])
  }

  /** The appearance ReadAppearance reads from the front of a stream holding
      `b`: two ints and the shiny code byte, which throws unless it is 1, 2
      or 3, then the type byte. A stream that runs out first throws
      EndOfStream. */
  function DecodeAppearance(b: seq<bv8>): (r: Result<PogoEntry>)
    ensures r.Ok? <==> |b| >= WriteSize && 1 <= b[8] <= 3
    ensures |b| >= 9 && !(1 <= b[8] <= 3) ==> r == Err(ArgumentOutOfRange)
    ensures r.Err? && (|b| < 9 || 1 <= b[8] <= 3) ==> r == Err(EndOfStream)
    ensures r.Ok? ==> r.value.Type == b[9] && !r.value.Shiny.Unnamed?
  {
    if |b| < 9 then Err(EndOfStream)
    else
      var shiny :- HexToPogo(b[8]);
      if |b| < WriteSize then Err(EndOfStream)
      else Ok(PogoEntry(DecodeDate(ReadInt32(b[0..4])), DecodeDate(ReadInt32(b[4..8])), shiny, b[9]))
  }

  /** Reading one appearance looks at its 10 bytes and no further. */
  lemma DecodeAppearanceFront(b: seq<bv8>)
    requires |b| >= WriteSize
    ensures DecodeAppearance(b) == DecodeAppearance(b[..WriteSize])
  {
    assert b[..WriteSize][0..4] == b[0..4];
    assert b[..WriteSize][4..8] == b[4..8];
  }

  /** A well-formed appearance comes back unchanged: same dates, same shiny
      rule, same type byte. */
  lemma AppearanceRoundTrip(e: PogoEntry)
    requires WellFormed(e)
    ensures EncodeAppearance(e).Ok?
    ensures DecodeAppearance(EncodeAppearance(e).value) == Ok(e)
  {
    var b := EncodeAppearance(e).value;
    assert b[0..4] == WriteInt32(EncodeDate(e.Start));
    assert b[4..8] == WriteInt32(EncodeDate(e.End));
    WriteReadInt32(EncodeDate(e.Start));
    WriteReadInt32(EncodeDate(e.End));
    ShinyCodeBijection(e.Shiny, b[8]);
  }

  /** Every 10 bytes that decode are written back byte for byte. */
  lemma AppearanceReencode(b: seq<bv8>)
    requires |b| == WriteSize && DecodeAppearance(b).Ok?
    ensures EncodeAppearance(DecodeAppearance(b).value) == Ok(b)
  {
    var e := DecodeAppearance(b).value;
    ReadThenWriteInt32(b[0..4]);
    ReadThenWriteInt32(b[4..8]);
    ShinyCodeBijection(e.Shiny, b[8]);
    assert b == b[0..4] + b[4..8] + [b[8], b[9]];
  }

  /** The date sentinel: a date is written as four zero bytes exactly when it
      is absent or packs to 0, and reads back as absent in just that case. */
  lemma DateSentinel(e: PogoEntry)
    requires EncodeAppearance(e).Ok?
    ensures var b := EncodeAppearance(e).value;
            && (b[0..4] == [0, 0, 0, 0] <==> e.Start == Absent || e.Start == Present(0))
            && (b[4..8] == [0, 0, 0, 0] <==> e.End == Absent || e.End == Present(0))
            && DecodeAppearance(b).value.Start == (if e.Start == Present(0) then Absent else e.Start)
            && DecodeAppearance(b).value.End == (if e.End == Present(0) then Absent else e.End)
  {
    var b := EncodeAppearance(e).value;
    assert b[0..4] == WriteInt32(EncodeDate(e.Start));
    assert b[4..8] == WriteInt32(EncodeDate(e.End));
    WriteReadInt32(EncodeDate(e.Start));
    WriteReadInt32(EncodeDate(e.End));
  }

  // ---------------------------------------------------------------------
  // Groups

  /** The appearance records of `data`, in order; throws at the first
      appearance whose shiny rule is not a named one. */
  function EncodeAppearances(data: seq<PogoEntry>): (r: Result<seq<bv8>>)
    ensures r.Err? ==> r.error == ArgumentOutOfRange
    ensures r.Ok? ==> |r.value| == WriteSize * |data|
  {
    var recs :- MapAll(EncodeAppearance, data);
    FlattenLength(recs);
    Ok(Flatten(recs))
  }

  /** The records of a list are written exactly when every shiny rule in it
      is a named one. */
  lemma EncodeAppearancesOk(data: seq<PogoEntry>)
    ensures EncodeAppearances(data).Ok? <==> forall i :: 0 <= i < |data| ==> !data[i].Shiny.Unnamed?
  {
    assert MapAll(EncodeAppearance, data).Ok? <==> forall i :: 0 <= i < |data| ==> !data[i].Shiny.Unnamed?;
  }

  /** The bytes GetBinary returns for a group: the header, then the
      appearance records. */
  function EncodeGroup(g: PogoPoke): (r: Result<seq<bv8>>)
    ensures r.Err? ==> r.error == ArgumentOutOfRange
    ensures r.Ok? ==> |r.value| == 2 + WriteSize * |g.Data|
  {
    var body :- EncodeAppearances(g.Data);
    Ok(WriteUInt16(PackHeader(g.Species, g.Form)) + body)
  }

  /** A group is written exactly when every shiny rule in it is a named
      one; otherwise GetBinary throws ArgumentOutOfRange. */
  lemma EncodeGroupOk(g: PogoPoke)
    ensures EncodeGroup(g).Ok? <==> forall i :: 0 <= i < |g.Data| ==> !g.Data[i].Shiny.Unnamed?
  {
    EncodeAppearancesOk(g.Data);
  }

  /** The group bytes for a group whose records are `body`. */
  lemma EncodeGroupOf(g: PogoPoke, body: seq<bv8>)
    requires EncodeAppearances(g.Data) == Ok(body)
    ensures EncodeGroup(g) == Ok(WriteUInt16(PackHeader(g.Species, g.Form)) + body)
  {
  }

  /** The first `count` appearance records of `b`, in order; throws at the
      first record whose shiny code is not 1, 2 or 3. */
  function DecodeAppearances(b: seq<bv8>, count: nat): (r: Result<seq<PogoEntry>>)
    requires WriteSize * count <= |b|
    ensures r.Err? ==> r.error == ArgumentOutOfRange
    ensures r.Ok? ==> |r.value| == count
  {
    var cs := Chunks(b, count);
    assert forall i :: 0 <= i < count ==> |cs[i]| == WriteSize;
    MapAll(DecodeAppearance, cs)
  }

  /** The records of `b` all read exactly when each of their shiny codes is
      1, 2 or 3. */
  lemma DecodeAppearancesOk(b: seq<bv8>, count: nat)
    requires WriteSize * count <= |b|
    ensures DecodeAppearances(b, count).Ok? <==> forall i :: 0 <= i < count ==> 1 <= b[WriteSize * i + 8] <= 3
  {
    var cs := Chunks(b, count);
    if MapAll(DecodeAppearance, cs).Ok? {
      forall i | 0 <= i < count
        ensures 1 <= b[WriteSize * i + 8] <= 3
      {
        assert DecodeAppearance(cs[i]).Ok?;
        assert cs[i][8] == b[WriteSize * i + 8];
      }
    } else {
      var k :| 0 <= k < count && DecodeAppearance(cs[k]).Err?;
      assert |cs[k]| == WriteSize && cs[k][8] == b[WriteSize * k + 8];
    }
  }

  /** The group GetPogoPoke reads: throws when there is no 2-byte header or
      when a shiny code is not 1, 2 or 3; reads (|b| - 2) / 10 appearances
      and ignores any shorter remainder. */
  function DecodeGroup(b: seq<bv8>): (r: Result<PogoPoke>)
    ensures |b| < 2 ==> r == Err(EndOfStream)
    ensures |b| >= 2 && r.Err? ==> r.error == ArgumentOutOfRange
    ensures r.Ok? ==> |r.value.Data| == (|b| - 2) / WriteSize
  {
    if |b| < 2 then Err(EndOfStream)
    else
      var sf := ReadInt16(b[..2]);
      var data :- DecodeAppearances(b[2..], (|b| - 2) / WriteSize);
      Ok(PogoPoke(HeaderSpecies(sf), HeaderForm(sf), data))
  }

  /** A group is read exactly when the buffer holds a header and every
      complete record in it has a shiny code of 1, 2 or 3. */
  lemma DecodeGroupOk(b: seq<bv8>)
    ensures DecodeGroup(b).Ok? <==> |b| >= 2 && forall i :: 0 <= i < (|b| - 2) / WriteSize ==> 1 <= b[2 + WriteSize * i + 8] <= 3
  {
    if |b| >= 2 {
      var count := (|b| - 2) / WriteSize;
      DecodeAppearancesOk(b[2..], count);
      assert forall i :: 0 <= i < count ==> b[2..][WriteSize * i + 8] == b[2 + WriteSize * i + 8];
    }
  }

  /** The group read from a buffer whose header holds `sf` and whose records
      read as `data`. */
  lemma DecodeGroupOf(b: seq<bv8>, sf: bv16, data: seq<PogoEntry>)
    requires |b| >= 2 && ReadInt16(b[..2]) == sf
    requires DecodeAppearances(b[2..], (|b| - 2) / WriteSize) == Ok(data)
    ensures DecodeGroup(b) == Ok(PogoPoke(HeaderSpecies(sf), HeaderForm(sf), data))
  {
  }

  /** An encoded group starts with the 2-byte header. */
  lemma EncodeGroupHeader(g: PogoPoke)
    requires EncodeGroup(g).Ok?
    ensures EncodeGroup(g).value[..2] == WriteUInt16(PackHeader(g.Species, g.Form))
  {
    var body := EncodeAppearances(g.Data).value;
    EncodeGroupOf(g, body);
    SliceAfter(WriteUInt16(PackHeader(g.Species, g.Form)), body, 0, 0);
  }

  /** Appearance i of an encoded group occupies bytes 2 + 10i to 2 + 10i + 9:
      the records follow the header in list order. */
  lemma EncodeGroupLayout(g: PogoPoke, i: nat)
    requires EncodeGroup(g).Ok? && i < |g.Data|
    ensures EncodeAppearance(g.Data[i]).Ok?
    ensures EncodeGroup(g).value[2 + WriteSize * i..2 + WriteSize * i + WriteSize] == EncodeAppearance(g.Data[i]).value
  {
    var recs := MapAll(EncodeAppearance, g.Data).value;
    var body := Flatten(recs);
    EncodeGroupOf(g, body);
    FlattenAt(recs, i);
    SliceAfter(WriteUInt16(PackHeader(g.Species, g.Form)), body, WriteSize * i, WriteSize * i + WriteSize);
  }

  /** A trailing remainder shorter than one record is ignored, not rejected. */
  lemma TrailingBytesIgnored(b: seq<bv8>, t: seq<bv8>)
    requires |b| >= 2 && (|b| - 2) % WriteSize == 0 && |t| < WriteSize
    ensures DecodeGroup(b + t) == DecodeGroup(b)
  {
    var count := (|b| - 2) / WriteSize;
    assert (|b + t| - 2) / WriteSize == count;
    assert (b + t)[..2] == b[..2];
    assert (b + t)[2..][..WriteSize * count] == b[2..][..WriteSize * count];
    ChunksPrefix((b + t)[2..], b[2..], count);
  }

  /** Well-formed appearances, encoded and decoded, come back in order. */
  lemma AppearancesRoundTrip(data: seq<PogoEntry>)
    requires forall i :: 0 <= i < |data| ==> WellFormed(data[i])
    ensures EncodeAppearances(data).Ok?
    ensures DecodeAppearances(EncodeAppearances(data).value, |data|) == Ok(data)
  {
    forall i | 0 <= i < |data|
      ensures EncodeAppearance(data[i]).Ok? && DecodeAppearance(EncodeAppearance(data[i]).value) == Ok(data[i])
    {
      AppearanceRoundTrip(data[i]);
    }
    MapAllCompose(EncodeAppearance, DecodeAppearance, data, data);
    ChunksOfFlatten(MapAll(EncodeAppearance, data).value);
  }

  /** A group whose appearances are well formed comes back with the same
      appearances, in order, and with the species and form that the header
      decoding yields (see HeaderDecode). */
  lemma GroupRoundTrip(g: PogoPoke)
    requires forall i :: 0 <= i < |g.Data| ==> WellFormed(g.Data[i])
    ensures EncodeGroup(g).Ok?
    ensures var sf := PackHeader(g.Species, g.Form);
            DecodeGroup(EncodeGroup(g).value) == Ok(PogoPoke(HeaderSpecies(sf), HeaderForm(sf), g.Data))
  {
    AppearancesRoundTrip(g.Data);
    var sf := PackHeader(g.Species, g.Form);
    var header := WriteUInt16(sf);
    var body := EncodeAppearances(g.Data).value;
    var b := header + body;
    assert EncodeGroup(g) == Ok(b);
    assert b[..2] == header && b[2..] == body;
    WriteReadUInt16(sf);
    assert (|b| - 2) / WriteSize == |g.Data|;
    DecodeGroupOf(b, sf, g.Data);
  }

  /** For a species below 0x800 and a form below 32, decode undoes encode
      exactly when the form is 0. */
  lemma GroupRoundTripExact(g: PogoPoke)
    requires forall i :: 0 <= i < |g.Data| ==> WellFormed(g.Data[i])
    requires g.Species < 0x800 && g.Form < 32
    ensures EncodeGroup(g).Ok?
    ensures DecodeGroup(EncodeGroup(g).value) == Ok(g) <==> g.Form == 0
  {
    GroupRoundTrip(g);
    HeaderRoundTrip(g.Species, g.Form);
  }

  /** Decoded records re-encode to the bytes they were read from. */
  lemma AppearancesReencode(b: seq<bv8>, count: nat)
    requires WriteSize * count <= |b| && DecodeAppearances(b, count).Ok?
    ensures EncodeAppearances(DecodeAppearances(b, count).value) == Ok(b[..WriteSize * count])
  {
    var cs := Chunks(b, count);
    forall i | 0 <= i < count
      ensures DecodeAppearance(cs[i]).Ok? && EncodeAppearance(DecodeAppearance(cs[i]).value) == Ok(cs[i])
    {
      AppearanceReencode(cs[i]);
    }
    MapAllCompose(DecodeAppearance, EncodeAppearance, cs, cs);
    FlattenOfChunks(b, count);
  }

  /** Every buffer of length 2 + 10k that decodes is written back byte for
      byte: on such buffers encode undoes decode. */
  lemma GroupReencode(b: seq<bv8>)
    requires (|b| - 2) % WriteSize == 0 && DecodeGroup(b).Ok?
    ensures EncodeGroup(DecodeGroup(b).value) == Ok(b)
  {
    var count := (|b| - 2) / WriteSize;
    assert WriteSize * count == |b| - 2;
    var header, body := b[..2], b[2..];
    var sf := ReadInt16(header);
    var data := DecodeAppearances(body, count).value;
    DecodeGroupOf(b, sf, data);
    AppearancesReencode(body, count);
    assert body[..WriteSize * count] == body;
    HeaderReencode(header);
    EncodeGroupOf(PogoPoke(HeaderSpecies(sf), HeaderForm(sf), data), body);
    assert b == header + body;
  }

  /** A header read and decoded packs and writes back to the same two
      bytes. */
  lemma HeaderReencode(h: seq<bv8>)
    requires |h| == 2
    ensures var sf := ReadInt16(h);
            WriteUInt16(PackHeader(HeaderSpecies(sf), HeaderForm(sf))) == h
  {
    HeaderDecodeRange(ReadInt16(h));
    ReadThenWriteInt16(h);
  }

  // ---------------------------------------------------------------------
  // The imperative encoder and decoder

  /** Write: appends the 10-byte record of `entry` to the writer's bytes. */
  method Write(entry: PogoEntry, bw: seq<bv8>) returns (r: Result<seq<bv8>>)
    ensures EncodeAppearance(entry).Ok? ==> r == Ok(bw + EncodeAppearance(entry).value)
    ensures EncodeAppearance(entry).Err? ==> r == Err(ArgumentOutOfRange)
  {
    var out := bw + WriteInt32(EncodeDate(entry.Start));
    out := out + WriteInt32(EncodeDate(entry.End));
    var code :- PogoToHex(entry.Shiny);
    out := out + [code];
    out := out + [entry.Type];
    assert out == bw + (WriteInt32(EncodeDate(entry.Start)) + WriteInt32(EncodeDate(entry.End)) + [code, entry.Type]);
    return Ok(out);
  }

  /** GetBinary: the header, then one record per appearance in list order. */
  method GetBinary(entry: PogoPoke) returns (r: Result<seq<bv8>>)
    ensures r == EncodeGroup(entry)
  {
    var header := WriteUInt16(PackHeader(entry.Species, entry.Form));
    var bw := header;
    ghost var recs: seq<seq<bv8>> := [];
    for i := 0 to |entry.Data|
      invariant MapAll(EncodeAppearance, entry.Data[..i]) == Ok(recs)
      invariant bw == header + Flatten(recs)
    {
      var next := Write(entry.Data[i], bw);
      if next.Err? {
        assert EncodeGroup(entry) == next by {
          EncodeGroupOk(entry);
        }
        return next;
      }
      ghost var rec := EncodeAppearance(entry.Data[i]).value;
      assert MapAll(EncodeAppearance, entry.Data[..i + 1]) == Ok(recs + [rec]) by {
        MapAllPrefixStep(EncodeAppearance, entry.Data, i, recs);
      }
      AppendRecord(header, recs, rec);
      recs := recs + [rec];
      bw := next.value;
    }
    assert entry.Data[..|entry.Data|] == entry.Data;
    EncodeGroupOf(entry, Flatten(recs));
    return Ok(bw);
  }

  /** ReadAppearance: reads one record at the cursor and advances it past
      the record. */
  method ReadAppearance(buf: seq<bv8>, pos: nat) returns (r: Result<PogoEntry>, next: nat)
    requires pos <= |buf|
    ensures r == DecodeAppearance(buf[pos..])
    ensures r.Ok? ==> next == pos + WriteSize
  {
    next := pos;
    if |buf| - next < 4 {
      return Err(EndOfStream), next;
    }
    var start := ReadInt32(buf[next..next + 4]);
    next := next + 4;
    if |buf| - next < 4 {
      return Err(EndOfStream), next;
    }
    var end := ReadInt32(buf[next..next + 4]);
    next := next + 4;
    if |buf| - next < 1 {
      return Err(EndOfStream), next;
    }
    var shiny := HexToPogo(buf[next]);
    next := next + 1;
    if shiny.Err? {
      return Err(shiny.error), next;
    }
    if |buf| - next < 1 {
      return Err(EndOfStream), next;
    }
    var kind := buf[next];
    next := next + 1;
    assert buf[pos..][0..4] == buf[pos..pos + 4];
    assert buf[pos..][4..8] == buf[pos + 4..pos + 8];
    r := Ok(PogoEntry(DecodeDate(start), DecodeDate(end), shiny.value, kind));
  }

  /** GetPogoPoke: reads the header, then (length - 2) / 10 records with a
      cursor, appending each to the group. */
  method GetPogoPoke(entry: seq<bv8>) returns (r: Result<PogoPoke>)
    ensures r == DecodeGroup(entry)
  {
    if |entry| < 2 {
      return Err(EndOfStream);
    }
    var sf := ReadInt16(entry[..2]);
    var species, form := HeaderSpecies(sf), HeaderForm(sf);
    var count := (|entry| - 2) / WriteSize;
    ghost var cs := Chunks(entry[2..], count);
    var pos := 2;
    var data: seq<PogoEntry> := [];
    for i := 0 to count
      invariant pos == 2 + WriteSize * i
      invariant |data| == i
      invariant forall j :: 0 <= j < i ==> DecodeAppearance(cs[j]) == Ok(data[j])
    {
      var a;
      ghost var rest := entry[pos..];
      a, pos := ReadAppearance(entry, pos);
      assert a == DecodeAppearance(cs[i]) by {
        assert |rest| >= WriteSize;
        DecodeAppearanceFront(rest);
        assert rest[..WriteSize] == entry[2 + WriteSize * i..2 + WriteSize * i + WriteSize];
        assert cs[i] == entry[2..][WriteSize * i..WriteSize * i + WriteSize];
        assert entry[2..][WriteSize * i..WriteSize * i + WriteSize] == entry[2 + WriteSize * i..2 + WriteSize * i + WriteSize];
      }
      if a.Err? {
        return Err(a.error);
      }
      data := data + [a.value];
    }
    MapAllOf(DecodeAppearance, cs, data);
    return Ok(PogoPoke(species, form, data));
  }
}
