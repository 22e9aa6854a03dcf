/** The values the pickler reads and writes: one encounter group (PogoPoke)
    per species and form, holding its appearance windows (PogoEntry). */
module Pogo {

  /** Shiny rule of an appearance window (PogoShiny). A C# enum variable can
      hold a value that names none of the three members; `Unnamed` stands for
      any such value, `raw` being its underlying number. */
  datatype PogoShiny = Random | Always | Never | Unnamed(raw: int)

  /** A nullable PogoDate: absent, or present and known by the int that its
      Write() packs it into. */
  datatype MaybeDate = Absent | Present(packed: bv32)

  /** One appearance window. `Type` is the byte that the PogoType enum is
      cast to on the wire. */
  datatype PogoEntry = PogoEntry(Start: MaybeDate, End: MaybeDate, Shiny: PogoShiny, Type: bv8)

  /** One encounter group: C# ints `Species` and `Form`, and the ordered
      appearance windows. */
  datatype PogoPoke = PogoPoke(Species: bv32, Form: bv32, Data: seq<PogoEntry>)

  /** The exceptions the pickler lets escape: EndOfStreamException from a
      BinaryReader that runs out of bytes, and ArgumentOutOfRangeException
      from the shiny-code conversions. */
  datatype Error = EndOfStream | ArgumentOutOfRange

  /** An operation that completes or throws. */
  datatype Result<T> = Ok(value: T) | Err(error: Error) {
    predicate IsFailure() {
      Err?
    }

    function PropagateFailure<U>(): Result<U>
      requires Err?
    {
      Err(error)
    }

    function Extract(): T
      requires Ok?
    {
      value
    }
  }

  /** Applies `f` to every element in order; the first failure aborts the
      whole list, as an exception thrown inside a C# loop does. */
  function MapAll<T, U>(f: T -> Result<U>, xs: seq<T>): (r: Result<seq<U>>)
    ensures r.Ok? <==> forall i :: 0 <= i < |xs| ==> f(xs[i]).Ok?
    ensures r.Ok? ==> |r.value| == |xs| && forall i :: 0 <= i < |xs| ==> f(xs[i]) == Ok(r.value[i])
    ensures r.Err? ==> exists i :: 0 <= i < |xs| && f(xs[i]) == Err(r.error) && forall j :: 0 <= j < i ==> f(xs[j]).Ok?
    decreases |xs|
  {
    if xs == [] then Ok([])
    else
      var init :- MapAll(f, xs[..|xs| - 1]);
      var last :- f(xs[|xs| - 1]);
      Ok(init + [last])
  }

  /** The results of a list are determined element by element. */
  lemma MapAllOf<T, U>(f: T -> Result<U>, xs: seq<T>, ys: seq<U>)
    requires |ys| == |xs| && forall i :: 0 <= i < |xs| ==> f(xs[i]) == Ok(ys[i])
    ensures MapAll(f, xs) == Ok(ys)
  {
    assert MapAll(f, xs).Ok?;
    var r := MapAll(f, xs).value;
    assert forall i :: 0 <= i < |xs| ==> r[i] == ys[i];
    assert r == ys;
  }

  /** The list fails with the error of its first failing element. */
  lemma MapAllFirstError<T, U>(f: T -> Result<U>, xs: seq<T>, i: nat)
    requires i < |xs| && f(xs[i]).Err? && forall j :: 0 <= j < i ==> f(xs[j]).Ok?
    ensures MapAll(f, xs) == Err(f(xs[i]).error)
  {
    var r := MapAll(f, xs);
    var k :| 0 <= k < |xs| && f(xs[k]) == Err(r.error) && forall j :: 0 <= j < k ==> f(xs[j]).Ok?;
    assert k == i;
  }

  /** When `g` maps the result of `f` on every element to the matching
      element of `zs`, mapping `g` over the results of `f` gives `zs`; with
      `zs == xs`, `g` undoes `f` on the whole list. */
  lemma MapAllCompose<T, U, V>(f: T -> Result<U>, g: U -> Result<V>, xs: seq<T>, zs: seq<V>)
    requires |zs| == |xs|
    requires forall i :: 0 <= i < |xs| ==> f(xs[i]).Ok? && g(f(xs[i]).value) == Ok(zs[i])
    ensures MapAll(f, xs).Ok?
    ensures MapAll(g, MapAll(f, xs).value) == Ok(zs)
  {
    var ys := MapAll(f, xs).value;
    MapAllOf(g, ys, zs);
  }

  /** Mapping over a prefix one element longer, when that element succeeds. */
  lemma MapAllPrefixStep<T, U>(f: T -> Result<U>, xs: seq<T>, i: nat, ys: seq<U>)
    requires i < |xs| && MapAll(f, xs[..i]) == Ok(ys) && f(xs[i]).Ok?
    ensures MapAll(f, xs[..i + 1]) == Ok(ys + [f(xs[i]).value])
  {
    assert xs[..i + 1][..i] == xs[..i];
  }

  /** Mapping over one more element: its result is appended, or the list
      fails with its error if no earlier element failed. */
  lemma MapAllSnoc<T, U>(f: T -> Result<U>, xs: seq<T>, x: T)
    ensures MapAll(f, xs + [x]) ==
            match MapAll(f, xs)
            case Err(e) => Err(e)
            case Ok(init) => (match f(x)
                              case Err(e) => Err(e)
                              case Ok(last) => Ok(init + [last]))
  {
    assert (xs + [x])[..|xs|] == xs;
  }
}
