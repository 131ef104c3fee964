/** Lists of same-shaped items filling a region exactly (`run_all` of src/parse.rs) and their encodings. */
module Items {
  import opened Basics
  import opened Parsing

  /** What is rendered is not empty and parses back, whatever follows it. */
  ghost predicate Reparses<T>(parse: Bytes -> Parsed<T>, render: T -> Result<Bytes>, v: T, rest: Bytes) {
    render(v).Ok? ==> render(v).value != [] && parse(render(v).value + rest) == Got(v, rest)
  }

  /** What parses was rendered. */
  ghost predicate Rerenders<T>(parse: Bytes -> Parsed<T>, render: T -> Result<Bytes>, s: Bytes) {
    parse(s).Got? ==> render(parse(s).value).Ok? && s == render(parse(s).value).value + parse(s).rest
  }

  ghost predicate Inverse<T(!new)>(parse: Bytes -> Parsed<T>, render: T -> Result<Bytes>) {
    && (forall v, rest :: Reparses(parse, render, v, rest))
    && (forall s :: Rerenders(parse, render, s))
  }

  /** Every successful parse consumes something. */
  ghost predicate Progress<T(!new)>(parse: Bytes -> Parsed<T>) {
    forall s :: parse(s).Got? ==> |parse(s).rest| < |s|
  }

  /** `run_all`: parse items until the region is exhausted. */
  function ParseAll<T(!new)>(parse: Bytes -> Parsed<T>, s: Bytes): Result<seq<T>>
    requires Progress(parse)
    decreases |s|
  {
    if s == [] then Ok([])
    else
      match parse(s)
      case Bad(error) => Err(error)
      case Got(item, rest) =>
        var items :- ParseAll(parse, rest);
        Ok([item] + items)
  }

  function RenderAll<T>(render: T -> Result<Bytes>, items: seq<T>): Result<Bytes> {
    if items == [] then Ok([])
    else
      var head :- render(items[0]);
      var tail :- RenderAll(render, items[1..]);
      Ok(head + tail)
  }

  lemma {:induction false} InverseProgress<T(!new)>(parse: Bytes -> Parsed<T>, render: T -> Result<Bytes>)
    requires Inverse(parse, render)
    ensures Progress(parse)
  {
    forall s | parse(s).Got?
      ensures |parse(s).rest| < |s|
    {
      assert Rerenders(parse, render, s);
      assert Reparses(parse, render, parse(s).value, []);
    }
  }

  /** Encoding a list and parsing the region gives the list back. */
  lemma {:induction false} RenderThenParse<T(!new)>(
    parse: Bytes -> Parsed<T>, render: T -> Result<Bytes>, items: seq<T>)
    requires Inverse(parse, render) && Progress(parse)
    requires RenderAll(render, items).Ok?
    ensures ParseAll(parse, RenderAll(render, items).value) == Ok(items)
  {
    if items != [] {
      var head, tail := render(items[0]).value, RenderAll(render, items[1..]).value;
      assert Reparses(parse, render, items[0], tail);
      RenderThenParse(parse, render, items[1..]);
      assert items == [items[0]] + items[1..];
    }
  }

  /** Parsing a region and encoding the items gives the region back. */
  lemma {:induction false} ParseThenRender<T(!new)>(
    parse: Bytes -> Parsed<T>, render: T -> Result<Bytes>, s: Bytes)
    requires Inverse(parse, render) && Progress(parse)
    requires ParseAll(parse, s).Ok?
    ensures RenderAll(render, ParseAll(parse, s).value) == Ok(s)
    decreases |s|
  {
    if s != [] {
      var Got(item, rest) := parse(s);
      assert Rerenders(parse, render, s);
      ParseThenRender(parse, render, rest);
      assert ParseAll(parse, s).value[1..] == ParseAll(parse, rest).value;
    }
  }

  /** A list result with `items` put before it. */
  function After<T>(items: seq<T>, r: Result<seq<T>>): Result<seq<T>> {
    match r
    case Ok(more) => Ok(items + more)
    case Err(e) => Err(e)
  }

  lemma {:induction false} AfterOne<T>(items: seq<T>, item: T, r: Result<seq<T>>)
    ensures After(items, After([item], r)) == After(items + [item], r)
    ensures After([], r) == r
  {
    if r.Ok? {
      assert items + ([item] + r.value) == items + [item] + r.value;
      assert [] + r.value == r.value;
    }
  }

  /** The item loop itself. */
  method ParseLoop<T(!new)>(parse: Bytes -> Parsed<T>, s: Bytes) returns (r: Result<seq<T>>)
    requires Progress(parse)
    ensures r == ParseAll(parse, s)
  {
    var rest, items := s, [];
    ghost var start := ParseAll(parse, s);
    assert start == After([], start) by {
      if start.Ok? {
        assert [] + start.value == start.value;
      }
    }
    while rest != []
      invariant start == After(items, ParseAll(parse, rest))
      decreases |rest|
    {
      match parse(rest)
      case Bad(error) =>
        return Err(error);
      case Got(item, left) =>
        assert ParseAll(parse, rest) == After([item], ParseAll(parse, left));
        AfterOne(items, item, ParseAll(parse, left));
        items := items + [item];
        rest := left;
    }
    assert items + [] == items;
    r := Ok(items);
  }
}
