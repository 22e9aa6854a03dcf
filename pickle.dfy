/** The public entry points of PogoPickler: a list of encounter groups to and
    from a BinLinker container tagged "go", each group one entry of the
    container, and the LGPE container built from the roster. BinLinker
    itself is not part of this model: its pack and unpack are parameters,
    and the only thing ever assumed of them is, where a lemma says so, that
    unpacking undoes packing. */
module Pickle {
  import opened Binary
  import opened Pogo
  import opened Codec
  import opened Lgpe

  /** The identifier the container is tagged with. */
  const Identifier: string := "go"

  /** BinLinker.Pack: entries and an identifier to one container. */
  type Packer = (seq<seq<bv8>>, string) -> seq<bv8>

  /** BinLinker.Unpack: a container and an identifier to its entries. */
  type Unpacker = (seq<bv8>, string) -> seq<seq<bv8>>

  /** The container WritePickle returns: one GetBinary entry per group, in
      list order, packed under "go". */
  function EncodePickle(pack: Packer, list: seq<PogoPoke>): Result<seq<bv8>>
  {
    var entries :- MapAll(EncodeGroup, list);
    Ok(pack(entries, Identifier))
  }

  /** The list ReadPickle returns: one GetPogoPoke group per unpacked entry,
      in container order. */
  function DecodePickle(unpack: Unpacker, pickle: seq<bv8>): (r: Result<seq<PogoPoke>>)
    ensures r.Ok? ==> |r.value| == |unpack(pickle, Identifier)|
  {
    MapAll(DecodeGroup, unpack(pickle, Identifier))
  }

  /** The container WritePickleLGPE returns. */
  function EncodePickleLGPE(pack: Packer, details: (int, int) -> PogoPoke): Result<seq<bv8>>
  {
    var entries :- PickleLGPE(details);
    Ok(pack(entries, Identifier))
  }

  /** What a group reads back as: its species and form passed through the
      16-bit header, its appearances unchanged. */
  function Normalised(g: PogoPoke): PogoPoke
  {
    var sf := PackHeader(g.Species, g.Form);
    PogoPoke(HeaderSpecies(sf), HeaderForm(sf), g.Data)
  }

  /** The groups whose appearances can all be written and read back. */
  predicate AllWellFormed(list: seq<PogoPoke>)
  {
    forall i, k :: 0 <= i < |list| && 0 <= k < |list[i].Data| ==> WellFormed(list[i].Data[k])
  }

  /** Reading back what was written, through any container whose unpack
      undoes its pack, gives every group back, in order, with its species
      and form as the header carries them. */
  lemma PickleRoundTrip(pack: Packer, unpack: Unpacker, list: seq<PogoPoke>)
    requires forall es :: unpack(pack(es, Identifier), Identifier) == es
    requires AllWellFormed(list)
    ensures EncodePickle(pack, list).Ok?
    ensures DecodePickle(unpack, EncodePickle(pack, list).value) ==
            Ok(seq(|list|, i requires 0 <= i < |list| => Normalised(list[i])))
  {
    var zs := seq(|list|, i requires 0 <= i < |list| => Normalised(list[i]));
    forall i | 0 <= i < |list|
      ensures EncodeGroup(list[i]).Ok? && DecodeGroup(EncodeGroup(list[i]).value) == Ok(zs[i])
    {
      GroupRoundTrip(list[i]);
    }
    MapAllCompose(EncodeGroup, DecodeGroup, list, zs);
  }

  /** The list comes back exactly when every group has form 0 and a species
      below 0x800. */
  lemma PickleRoundTripExact(pack: Packer, unpack: Unpacker, list: seq<PogoPoke>)
    requires forall es :: unpack(pack(es, Identifier), Identifier) == es
    requires AllWellFormed(list)
    requires forall i :: 0 <= i < |list| ==> list[i].Species < 0x800 && list[i].Form == 0
    ensures EncodePickle(pack, list).Ok?
    ensures DecodePickle(unpack, EncodePickle(pack, list).value) == Ok(list)
  {
    forall i | 0 <= i < |list|
      ensures EncodeGroup(list[i]).Ok? && DecodeGroup(EncodeGroup(list[i]).value) == Ok(list[i])
    {
      GroupRoundTripExact(list[i]);
    }
    MapAllCompose(EncodeGroup, DecodeGroup, list, list);
  }

  /** GetEntries: fills an array with GetBinary of each group, in order. */
  method GetEntries(entries: seq<PogoPoke>) returns (r: Result<seq<seq<bv8>>>)
    ensures r == MapAll(EncodeGroup, entries)
  {
    var result := new seq<bv8>[|entries|];
    for i := 0 to |entries|
      invariant forall j :: 0 <= j < i ==> EncodeGroup(entries[j]) == Ok(result[j])
    {
      var e := GetBinary(entries[i]);
      if e.Err? {
        MapAllFirstError(EncodeGroup, entries, i);
        return Err(e.error);
      }
      result[i] := e.value;
    }
    MapAllOf(EncodeGroup, entries, result[..]);
    return Ok(result[..]);
  }

  /** WritePickle. */
  method WritePickle(list: seq<PogoPoke>, pack: Packer) returns (r: Result<seq<bv8>>)
    ensures r == EncodePickle(pack, list)
  {
    var data :- GetEntries(list);
    return Ok(pack(data, Identifier));
  }

  /** ReadPickle: unpacks the container and adds GetPogoPoke of each entry
      to a new list, in order. */
  method ReadPickle(pickle: seq<bv8>, unpack: Unpacker) returns (r: Result<seq<PogoPoke>>)
    ensures r == DecodePickle(unpack, pickle)
  {
    var data := unpack(pickle, Identifier);
    var result: seq<PogoPoke> := [];
    for i := 0 to |data|
      invariant MapAll(DecodeGroup, data[..i]) == Ok(result)
    {
      var g := GetPogoPoke(data[i]);
      if g.Err? {
        MapAllFirstError(DecodeGroup, data, i);
        return Err(g.error);
      }
      MapAllPrefixStep(DecodeGroup, data, i, result);
      result := result + [g.value];
    }
    assert data[..|data|] == data;
    return Ok(result);
  }

  /** WritePickleLGPE. */
  method WritePickleLGPE(details: (int, int) -> PogoPoke, pack: Packer) returns (r: Result<seq<bv8>>)
    ensures r == EncodePickleLGPE(pack, details)
  {
    var data :- GetPickleLGPE(details);
    return Ok(pack(data, Identifier));
  }
}
