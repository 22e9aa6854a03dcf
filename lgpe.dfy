/** The LGPE projection of PogoPickler: a fixed roster of 170 (species, form)
    keys, and for each key a group written as the usual 2-byte header
    followed by a 2-byte record (shiny code, type) for every appearance whose
    (shiny rule, type) pair has not been written before in that group. No
    dates are written. */
module Lgpe {
  import opened Binary
  import opened Pogo
  import opened Records
  import opened Codec

  // ---------------------------------------------------------------------
  // Deduplication

  /** The key WriteLGPE files an appearance under:
      `(ushort)((byte)Shiny | ((byte)Type << 8))`, kept as the pair it
      packs. */
  datatype DedupKey = DedupKey(shiny: PogoShiny, kind: bv8)

  function KeyOf(e: PogoEntry): DedupKey
  {
    DedupKey(e.Shiny, e.Type)
  }

  /** The keys of the appearances in `data`. */
  function Keys(data: seq<PogoEntry>): set<DedupKey>
  {
    set i | 0 <= i < |data| :: KeyOf(data[i])
  }

  /** The appearances of `data` that WriteEntryLGPE writes: each one whose
      key no earlier appearance has, in list order. */
  function Kept(data: seq<PogoEntry>): seq<PogoEntry>
    decreases |data|
  {
    if data == [] then []
    else
      var init := data[..|data| - 1];
      var last := data[|data| - 1];
      if KeyOf(last) in Keys(init) then Kept(init) else Kept(init) + [last]
  }

  /** `xs` is what remains of `ys` after deleting some of its elements. */
  predicate IsSubsequence<T(==)>(xs: seq<T>, ys: seq<T>)
    decreases |ys|
  {
    if xs == [] then true
    else if ys == [] then false
    else IsSubsequence(xs, ys[..|ys| - 1])
         || (xs[|xs| - 1] == ys[|ys| - 1] && IsSubsequence(xs[..|xs| - 1], ys[..|ys| - 1]))
  }

  /** The keys of a list one appearance longer. */
  lemma KeysSnoc(data: seq<PogoEntry>, i: nat)
    requires i < |data|
    ensures Keys(data[..i + 1]) == Keys(data[..i]) + {KeyOf(data[i])}
  {
    var a, b := data[..i + 1], data[..i];
    forall k | k in Keys(a)
      ensures k in Keys(b) + {KeyOf(data[i])}
    {
      var j :| 0 <= j < |a| && k == KeyOf(a[j]);
      if j < i {
        assert b[j] == a[j];
      }
    }
    forall k | k in Keys(b)
      ensures k in Keys(a)
    {
      var j :| 0 <= j < |b| && k == KeyOf(b[j]);
      assert a[j] == b[j];
    }
    assert a[i] == data[i];
  }

  /** The appearances kept from a list one appearance longer. */
  lemma KeptSnoc(data: seq<PogoEntry>, i: nat)
    requires i < |data|
    ensures Kept(data[..i + 1]) ==
            if KeyOf(data[i]) in Keys(data[..i]) then Kept(data[..i]) else Kept(data[..i]) + [data[i]]
  {
    assert data[..i + 1][..i] == data[..i];
  }

  /** Every key of the group is written: dropping repeats loses no pair. */
  lemma {:induction false} KeptKeys(data: seq<PogoEntry>)
    ensures Keys(Kept(data)) == Keys(data)
    decreases |data|
  {
    if data != [] {
      var n := |data| - 1;
      assert data[..n + 1] == data;
      KeysSnoc(data, n);
      KeptKeys(data[..n]);
      var kept := Kept(data[..n]);
      if KeyOf(data[n]) !in Keys(data[..n]) {
        assert (kept + [data[n]])[..|kept|] == kept;
        KeysSnoc(kept + [data[n]], |kept|);
      }
    }
  }

  /** No two written appearances share a (shiny rule, type) pair. */
  lemma {:induction false} KeptDistinct(data: seq<PogoEntry>)
    ensures forall i, j :: 0 <= i < j < |Kept(data)| ==> KeyOf(Kept(data)[i]) != KeyOf(Kept(data)[j])
    decreases |data|
  {
    if data != [] {
      var n := |data| - 1;
      var kept := Kept(data[..n]);
      KeptDistinct(data[..n]);
      if KeyOf(data[n]) !in Keys(data[..n]) {
        KeptKeys(data[..n]);
        assert KeyOf(data[n]) !in Keys(kept);
        assert forall i :: 0 <= i < |kept| ==> KeyOf(kept[i]) in Keys(kept);
      }
    }
  }

  /** The written appearances keep their input order: they are the input
      with some appearances deleted. */
  lemma {:induction false} KeptSubsequence(data: seq<PogoEntry>)
    ensures IsSubsequence(Kept(data), data)
    decreases |data|
  {
    if data != [] {
      var n := |data| - 1;
      var kept := Kept(data[..n]);
      KeptSubsequence(data[..n]);
      if KeyOf(data[n]) !in Keys(data[..n]) {
        assert (kept + [data[n]])[..|kept|] == kept;
      }
    }
  }

  /** What the first `m` appearances keep is the start of what the whole
      list keeps: later appearances only ever add records at the end. */
  lemma {:induction false} KeptPrefix(data: seq<PogoEntry>, m: nat)
    requires m <= |data|
    ensures Kept(data[..m]) <= Kept(data)
    decreases |data| - m
  {
    if m < |data| {
      KeptSnoc(data, m);
      KeptPrefix(data, m + 1);
    } else {
      assert data[..m] == data;
    }
  }

  /** The first appearance of every pair is the one written, and it is
      written right after the records of the appearances before it. */
  lemma KeptFirstOccurrences(data: seq<PogoEntry>, i: nat)
    requires i < |data| && KeyOf(data[i]) !in Keys(data[..i])
    ensures |Kept(data[..i])| < |Kept(data)| && Kept(data)[|Kept(data[..i])|] == data[i]
    ensures data[i] in Kept(data)
  {
    KeptSnoc(data, i);
    KeptPrefix(data, i + 1);
    assert Kept(data[..i + 1])[|Kept(data[..i])|] == data[i];
  }

  /** At most one record per appearance. */
  lemma {:induction false} KeptLength(data: seq<PogoEntry>)
    ensures |Kept(data)| <= |data|
    decreases |data|
  {
    if data != [] {
      KeptLength(data[..|data| - 1]);
    }
  }

  /** A list whose pairs are already distinct is written whole. */
  lemma {:induction false} KeptDistinctUnchanged(data: seq<PogoEntry>)
    requires forall i, j :: 0 <= i < j < |data| ==> KeyOf(data[i]) != KeyOf(data[j])
    ensures Kept(data) == data
    decreases |data|
  {
    if data != [] {
      var n := |data| - 1;
      KeptDistinctUnchanged(data[..n]);
      assert KeyOf(data[n]) !in Keys(data[..n]);
      assert data[..n] + [data[n]] == data;
    }
  }

  /** Deduplicating twice is deduplicating once. */
  lemma KeptIdempotent(data: seq<PogoEntry>)
    ensures Kept(Kept(data)) == Kept(data)
  {
    KeptDistinct(data);
    KeptDistinctUnchanged(Kept(data));
  }

  // ---------------------------------------------------------------------
  // Records and groups

  /** The two bytes WriteLGPE writes for an appearance it keeps: the shiny
      code, then the type byte; throws when the shiny rule is not a named
      one. */
  function LgpeRecord(e: PogoEntry): (r: Result<seq<bv8>>)
    ensures r.Ok? <==> !e.Shiny.Unnamed?
    ensures r.Err? ==> r.error == ArgumentOutOfRange
    ensures r.Ok? ==> |r.value| == 2 && HexToPogo(r.value[0]) == Ok(e.Shiny) && r.value[1] == e.Type
  {
    var code :- PogoToHex(e.Shiny);
    ShinyCodeBijection(e.Shiny, code);
    Ok([code, e.Type])
  }

  /** The bytes WriteEntryLGPE returns for a group: the header, then the
      records of the kept appearances. */
  function EncodeEntryLGPE(g: PogoPoke): (r: Result<seq<bv8>>)
    ensures r.Err? ==> r.error == ArgumentOutOfRange
  {
    var recs :- MapAll(LgpeRecord, Kept(g.Data));
    Ok(WriteUInt16(PackHeader(g.Species, g.Form)) + Flatten(recs))
  }

  /** Two-byte records take two bytes each, and record j sits at bytes 2j
      and 2j + 1. */
  lemma {:induction false} FlattenPairs(xs: seq<seq<bv8>>, j: nat)
    requires forall i :: 0 <= i < |xs| ==> |xs[i]| == 2
    ensures |Flatten(xs)| == 2 * |xs|
    ensures j < |xs| ==> Flatten(xs)[2 * j..2 * j + 2] == xs[j]
    decreases |xs|
  {
    if xs != [] {
      var n := |xs| - 1;
      FlattenPairs(xs[..n], j);
    }
  }

  /** A group is written exactly when every kept appearance has a named
      shiny rule. */
  lemma EncodeEntryLGPEOk(g: PogoPoke)
    ensures EncodeEntryLGPE(g).Ok? <==> forall e :: e in Kept(g.Data) ==> !e.Shiny.Unnamed?
  {
    var kept := Kept(g.Data);
    assert MapAll(LgpeRecord, kept).Ok? <==> forall i :: 0 <= i < |kept| ==> !kept[i].Shiny.Unnamed?;
  }

  /** Layout of a written group: the 2-byte header, then two bytes (shiny
      code, type) per kept appearance in order, and no date bytes; hence at
      most 2 + 2 * |Data| bytes. */
  lemma EncodeEntryLGPELayout(g: PogoPoke, j: nat)
    requires EncodeEntryLGPE(g).Ok?
    ensures var b := EncodeEntryLGPE(g).value;
            && |b| == 2 + 2 * |Kept(g.Data)| <= 2 + 2 * |g.Data|
            && b[..2] == WriteUInt16(PackHeader(g.Species, g.Form))
            && (j < |Kept(g.Data)| ==>
                  HexToPogo(b[2 + 2 * j]) == Ok(Kept(g.Data)[j].Shiny) && b[2 + 2 * j + 1] == Kept(g.Data)[j].Type)
  {
    var kept := Kept(g.Data);
    var recs := MapAll(LgpeRecord, kept).value;
    var header := WriteUInt16(PackHeader(g.Species, g.Form));
    var body := Flatten(recs);
    assert EncodeEntryLGPE(g).value == header + body;
    FlattenPairs(recs, j);
    KeptLength(g.Data);
    SliceAfter(header, body, 0, 0);
    if j < |kept| {
      SliceAfter(header, body, 2 * j, 2 * j + 2);
      assert (header + body)[2 + 2 * j..2 + 2 * j + 2] == recs[j];
    }
  }

  /** A worked example of the deduplication: appearances (Random, 1),
      (Always, 2), (Random, 1), (Never, 3), whatever their dates, are
      written as three records (1, 1), (2, 2), (3, 3), the repeated pair
      dropped. */
  lemma DedupExample(species: bv32, form: bv32, a: PogoEntry, b: PogoEntry, c: PogoEntry, d: PogoEntry)
    requires a.Shiny == Random && a.Type == 1
    requires b.Shiny == Always && b.Type == 2
    requires c.Shiny == Random && c.Type == 1
    requires d.Shiny == Never && d.Type == 3
    ensures Kept([a, b, c, d]) == [a, b, d]
    ensures EncodeEntryLGPE(PogoPoke(species, form, [a, b, c, d])) ==
            Ok(WriteUInt16(PackHeader(species, form)) + [1, 1, 2, 2, 3, 3])
  {
    KeptExample(a, b, c, d);
    var recs := [[1 as bv8, 1], [2, 2], [3, 3]];
    MapAllOf(LgpeRecord, [a, b, d], recs);
    FlattenExample(recs);
  }

  /** The first three steps of the example: both pairs are new. */
  lemma KeptExamplePrefix(a: PogoEntry, b: PogoEntry)
    requires KeyOf(a) != KeyOf(b)
    ensures Kept([a, b]) == [a, b]
    ensures Keys([a, b]) == {KeyOf(a), KeyOf(b)}
  {
    KeptDistinctUnchanged([a, b]);
    var data := [a, b];
    assert data[..0] == [] && data[..1] == [a] && data[..2] == data;
    KeysSnoc(data, 0);
    KeysSnoc(data, 1);
  }

  /** The example's list loses its third appearance. */
  lemma KeptExample(a: PogoEntry, b: PogoEntry, c: PogoEntry, d: PogoEntry)
    requires KeyOf(a) != KeyOf(b) && KeyOf(c) == KeyOf(a)
    requires KeyOf(d) != KeyOf(a) && KeyOf(d) != KeyOf(b)
    ensures Kept([a, b, c, d]) == [a, b, d]
  {
    var data := [a, b, c, d];
    KeptExamplePrefix(a, b);
    assert data[..2] == [a, b] && data[..3] == [a, b, c];
    KeptSnoc(data, 2);
    KeysSnoc(data, 2);
    KeptSnoc(data, 3);
    assert data[..4] == data;
  }

  /** The example's three records laid end to end. */
  lemma FlattenExample(recs: seq<seq<bv8>>)
    requires recs == [[1, 1], [2, 2], [3, 3]]
    ensures Flatten(recs) == [1, 1, 2, 2, 3, 3]
  {
    assert recs[..2][..1] == [[1, 1]] && [[1 as bv8, 1]][..0] == [];
    assert Flatten(recs[..2][..1]) == [1, 1];
    assert recs[..2] == [[1, 1], [2, 2]];
    assert Flatten(recs[..2]) == [1, 1, 2, 2];
  }

  // ---------------------------------------------------------------------
  // The imperative writer

  /** The per-group HashSet<ushort> of keys already written. */
  class KeySet {
    var keys: set<DedupKey>

    constructor()
      ensures keys == {}
    {
      keys := {};
    }

    predicate Contains(k: DedupKey)
      reads this
    {
      k in keys
    }

    method Add(k: DedupKey)
      modifies this
      ensures keys == old(keys) + {k}
    {
      keys := keys + {k};
    }
  }

  /** WriteLGPE: skips an appearance whose key is already in `written`;
      otherwise adds the key, then appends the record, throwing when the
      shiny rule is not a named one. */
  method WriteLGPE(entry: PogoEntry, bw: seq<bv8>, written: KeySet) returns (r: Result<seq<bv8>>)
    modifies written
    ensures written.keys == old(written.keys) + {KeyOf(entry)}
    ensures KeyOf(entry) in old(written.keys) ==> r == Ok(bw)
    ensures KeyOf(entry) !in old(written.keys) && LgpeRecord(entry).Ok? ==> r == Ok(bw + LgpeRecord(entry).value)
    ensures KeyOf(entry) !in old(written.keys) && LgpeRecord(entry).Err? ==> r == Err(ArgumentOutOfRange)
  {
    var us := KeyOf(entry);
    if written.Contains(us) {
      return Ok(bw);
    }
    written.Add(us);
    var code :- PogoToHex(entry.Shiny);
    var out := bw + [code];
    out := out + [entry.Type];
    assert out == bw + [code, entry.Type];
    return Ok(out);
  }

  /** WriteEntryLGPE: the header, then WriteLGPE for every appearance in
      order, with a key set of its own. */
  method WriteEntryLGPE(entry: PogoPoke) returns (r: Result<seq<bv8>>)
    ensures r == EncodeEntryLGPE(entry)
  {
    var hs := new KeySet();
    var header := WriteUInt16(PackHeader(entry.Species, entry.Form));
    var bw := header;
    ghost var recs: seq<seq<bv8>> := [];
    for i := 0 to |entry.Data|
      invariant hs.keys == Keys(entry.Data[..i])
      invariant MapAll(LgpeRecord, Kept(entry.Data[..i])) == Ok(recs)
      invariant bw == header + Flatten(recs)
    {
      KeysSnoc(entry.Data, i);
      KeptSnoc(entry.Data, i);
      var next := WriteLGPE(entry.Data[i], bw, hs);
      if next.Err? {
        assert EncodeEntryLGPE(entry) == next by {
          KeptFirstOccurrences(entry.Data, i);
          EncodeEntryLGPEOk(entry);
        }
        return next;
      }
      if KeyOf(entry.Data[i]) !in Keys(entry.Data[..i]) {
        ghost var rec := LgpeRecord(entry.Data[i]).value;
        MapAllSnoc(LgpeRecord, Kept(entry.Data[..i]), entry.Data[i]);
        AppendRecord(header, recs, rec);
        recs := recs + [rec];
      }
      bw := next.value;
    }
    assert entry.Data[..|entry.Data|] == entry.Data;
    return Ok(bw);
  }

  // ---------------------------------------------------------------------
  // The roster

  /** Enumerable.Range(start, count). */
  function Range(start: int, count: nat): seq<int>
  {
    seq(count, i => start + i)
  }

  /** The 18 species with an Alolan form (form 1), by national number:
      Rattata, Raticate, Raichu, Sandshrew, Sandslash, Vulpix, Ninetales,
      Diglett, Dugtrio, Meowth, Persian, Geodude, Graveler, Golem, Grimer,
      Muk, Exeggutor, Marowak. */
  const AlolanSpecies: seq<int> := [19, 20, 26, 27, 28, 37, 38, 50, 51, 52, 53, 74, 75, 76, 88, 89, 103, 105]

  /** The (species, form) keys GetPickleLGPE looks up, in order: species 1
      to 150, 808 and 809 with form 0, then the Alolan species with form 1. */
  function LgpeKeys(): seq<(int, int)>
  {
    var noForm := Range(1, 150) + Range(808, 2);
    seq(|noForm|, i requires 0 <= i < |noForm| => (noForm[i], 0))
      + seq(|AlolanSpecies|, i requires 0 <= i < |AlolanSpecies| => (AlolanSpecies[i], 1))
  }

  /** The roster has 170 keys: 1..150 and 808, 809 with form 0, then the 18
      Alolan species with form 1, in that order. */
  lemma LgpeKeyOrder()
    ensures |LgpeKeys()| == 170
    ensures forall i :: 0 <= i < 150 ==> LgpeKeys()[i] == (i + 1, 0)
    ensures LgpeKeys()[150] == (808, 0) && LgpeKeys()[151] == (809, 0)
    ensures forall j :: 0 <= j < 18 ==> LgpeKeys()[152 + j] == (AlolanSpecies[j], 1)
  {
  }

  /** No key of the roster is looked up twice. */
  lemma LgpeKeysDistinct()
    ensures forall i, j :: 0 <= i < j < |LgpeKeys()| ==> LgpeKeys()[i] != LgpeKeys()[j]
  {
    var keys := LgpeKeys();
    LgpeKeyOrder();
    assert forall j :: 0 <= j < 17 ==> AlolanSpecies[j] < AlolanSpecies[j + 1];
    AscendingDistinct(AlolanSpecies);
  }

  /** A list whose neighbours ascend has no repeated element. */
  lemma {:induction false} AscendingDistinct(s: seq<int>)
    requires forall j :: 0 <= j < |s| - 1 ==> s[j] < s[j + 1]
    ensures forall i, j :: 0 <= i < j < |s| ==> s[i] < s[j]
    decreases |s|
  {
    if |s| > 1 {
      var init := s[..|s| - 1];
      AscendingDistinct(init);
      forall i, j | 0 <= i < j < |s|
        ensures s[i] < s[j]
      {
        if j < |s| - 1 {
          assert s[i] == init[i] && s[j] == init[j];
        } else if i < j - 1 {
          assert s[i] == init[i] && s[j - 1] == init[j - 1];
        }
      }
    }
  }

  /** The groups GetPickleLGPE writes, one per key of the roster, as the
      lookup `details` (PogoEncounterList.GetDetails) returns them. */
  function LgpeGroups(details: (int, int) -> PogoPoke): (r: seq<PogoPoke>)
    ensures |r| == 170
    ensures forall i :: 0 <= i < 150 ==> r[i] == details(i + 1, 0)
    ensures r[150] == details(808, 0) && r[151] == details(809, 0)
    ensures forall j :: 0 <= j < 18 ==> r[152 + j] == details(AlolanSpecies[j], 1)
  {
    LgpeKeyOrder();
    var keys := LgpeKeys();
    seq(|keys|, i requires 0 <= i < |keys| => details(keys[i].0, keys[i].1))
  }

  /** The entries GetPickleLGPE returns: one written group per key, in
      roster order; throws at the first group that cannot be written. */
  function PickleLGPE(details: (int, int) -> PogoPoke): Result<seq<seq<bv8>>>
  {
    MapAll(EncodeEntryLGPE, LgpeGroups(details))
  }

  /** GetPickleLGPE returns 170 entries, entry i being the group looked up
      for roster key i, written by WriteEntryLGPE. */
  lemma PickleLGPEShape(details: (int, int) -> PogoPoke, i: nat)
    requires PickleLGPE(details).Ok? && i < 170
    ensures |PickleLGPE(details).value| == 170
    ensures var key := LgpeKeys()[i];
            EncodeEntryLGPE(details(key.0, key.1)) == Ok(PickleLGPE(details).value[i])
  {
    LgpeKeyOrder();
  }

  /** GetPickleLGPE: looks up the groups of the roster, then writes them. */
  method GetPickleLGPE(details: (int, int) -> PogoPoke) returns (r: Result<seq<seq<bv8>>>)
    ensures r == PickleLGPE(details)
  {
    var all := LgpeGroups(details);
    r := WriteEntriesLGPE(all);
  }

  /** The loop of GetPickleLGPE: fills the result array entry by entry with
      WriteEntryLGPE, in order. */
  method WriteEntriesLGPE(all: seq<PogoPoke>) returns (r: Result<seq<seq<bv8>>>)
    ensures r == MapAll(EncodeEntryLGPE, all)
  {
    var result := new seq<bv8>[|all|];
    for i := 0 to |all|
      invariant forall j :: 0 <= j < i ==> EncodeEntryLGPE(all[j]) == Ok(result[j])
    {
      var e := WriteEntryLGPE(all[i]);
      if e.Err? {
        MapAllFirstError(EncodeEntryLGPE, all, i);
        return Err(e.error);
      }
      result[i] := e.value;
    }
    MapAllOf(EncodeEntryLGPE, all, result[..]);
    return Ok(result[..]);
  }
}
