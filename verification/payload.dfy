/** The string that gets hashed for one nonce (`constructPayload`). Block data
    is an ordered list of entries; each entry is written as `["<label>",<value>]`,
    entries are separated by commas, and the nonce closes the object:
    `{"data":[<entry>,<entry>,...],"nonce":<decimal>}`. */
module Payload {
  import Format

  /** A scalar of the decoded block data. A text value prints as itself; a
      number prints as the text Go's `%v` gives it, taken as already rendered. */
  datatype Value = Text(s: string) | Number(rendered: string)

  /** `%v` of a value: the text itself, with no quotes added for either kind. */
  function Show(v: Value): string
  {
    match v
    case Text(s) => s
    case Number(t) => t
  }

  /** One element of the block data: the decoded JSON array `[label, value, ...]`. */
  datatype Entry = Entry(fields: seq<Value>)

  /** Entries the payload builder can print: a text label and a value. */
  predicate WellFormed(e: Entry)
  {
    |e.fields| >= 2 && e.fields[0].Text?
  }

  predicate AllWellFormed(data: seq<Entry>)
  {
    forall i :: 0 <= i < |data| ==> WellFormed(data[i])
  }

  const Open: string := "{\"data\":["
  const NonceKey: string := "],\"nonce\":"
  const Close: string := "}"

  /** `["<label>",<value>]`: the label between quotes, the value verbatim,
      and any field after the value ignored (see `RenderEntryParts` and
      `ExtraFieldsIgnored`). */
  function RenderEntry(e: Entry): (r: string)
    requires WellFormed(e)
    ensures |r| == |e.fields[0].s| + |Show(e.fields[1])| + 5
    ensures r[0] == '[' && r[1] == '"' && r[|r| - 1] == ']'
  {
    "[\"" + e.fields[0].s + "\"," + Show(e.fields[1]) + "]"
  }

  /** The rendering splits back into its parts: `["`, the label verbatim,
      `",`, the value verbatim, `]`. */
  lemma RenderEntryParts(e: Entry)
    requires WellFormed(e)
    ensures var r := RenderEntry(e);
            var name := e.fields[0].s;
            && r[..2] == "[\""
            && r[2..2 + |name|] == name
            && r[2 + |name|..4 + |name|] == "\","
            && r[4 + |name|..|r| - 1] == Show(e.fields[1])
  {
  }

  function RenderAll(data: seq<Entry>): (parts: seq<string>)
    requires AllWellFormed(data)
    ensures |parts| == |data|
    ensures forall i :: 0 <= i < |data| ==> parts[i] == RenderEntry(data[i])
  {
    seq(|data|, i requires 0 <= i < |data| => RenderEntry(data[i]))
  }

  /** The parts in order with one comma between neighbours and none after
      the last. */
  function Join(parts: seq<string>): string
  {
    if |parts| == 0 then ""
    else if |parts| == 1 then parts[0]
    else Join(parts[..|parts| - 1]) + "," + parts[|parts| - 1]
  }

  /** The canonical payload for block data and a nonce. */
  function Canonical(data: seq<Entry>, nonce: nat): string
    requires AllWellFormed(data)
  {
    Open + Join(RenderAll(data)) + NonceKey + Format.Decimal(nonce) + Close
  }

  /** `constructPayload(data, nonce)`: start from the opening, append every
      entry followed by a comma unless it is the last, then append the nonce. */
  method ConstructPayload(data: seq<Entry>, nonce: nat) returns (payload: string)
    requires AllWellFormed(data)
    ensures payload == Canonical(data, nonce)
  {
    payload := Open;
    var i := 0;
    while i < |data|
      invariant 0 <= i <= |data|
      invariant payload == Open + Written(data, i)
    {
      var entry: string;
      if i == |data| - 1 {
        entry := RenderEntry(data[i]);
      } else {
        entry := RenderEntry(data[i]) + ",";
      }
      LoopStep(data, i, entry);
      Associate(Open, Written(data, i), entry);
      payload := payload + entry;
      i := i + 1;
    }
    assert RenderAll(data)[..i] == RenderAll(data);
    payload := payload + NonceKey + Format.Decimal(nonce) + Close;
  }

  /** What `ConstructPayload` has appended after the first i entries: their
      join, followed by a comma while entries remain. */
  ghost function Written(data: seq<Entry>, i: nat): string
    requires AllWellFormed(data)
    requires i <= |data|
  {
    Join(RenderAll(data)[..i]) + Separator(0 < i < |data|)
  }

  /** One turn of the loop in `ConstructPayload`: appending entry i, with a
      comma unless it is the last, extends the text written so far to the
      first i + 1 entries. */
  lemma LoopStep(data: seq<Entry>, i: nat, entry: string)
    requires AllWellFormed(data)
    requires i < |data|
    requires entry == if i == |data| - 1 then RenderEntry(data[i]) else RenderEntry(data[i]) + ","
    ensures Written(data, i) + entry == Written(data, i + 1)
  {
    var parts := RenderAll(data);
    JoinMore(parts, i, entry, i < |data| - 1);
  }

  /** The same step on rendered parts: after the join of the first i parts
      and its separator, part i and its own separator give the join of the
      first i + 1 parts. */
  lemma JoinMore(parts: seq<string>, i: nat, entry: string, more: bool)
    requires i < |parts|
    requires entry == if more then parts[i] + "," else parts[i]
    ensures Join(parts[..i]) + Separator(i > 0) + entry == Join(parts[..i + 1]) + Separator(more)
  {
    JoinStep(parts, i);
    Regroup(Join(parts[..i]), Separator(i > 0), parts[i], Separator(more));
  }

  /** Concatenation regrouped, stated once so that the loop proofs do not
      search for it. */
  lemma Regroup(a: string, b: string, c: string, d: string)
    ensures (a + b) + (c + d) == (a + b + c) + d
  {
  }

  /** Concatenation is associative. */
  lemma Associate(a: string, b: string, c: string)
    ensures (a + b) + c == a + (b + c)
  {
  }

  function Separator(b: bool): string
  {
    if b then "," else ""
  }

  /** Joining one more part adds a comma exactly when parts came before it. */
  lemma JoinStep(parts: seq<string>, i: nat)
    requires i < |parts|
    ensures Join(parts[..i + 1]) == Join(parts[..i]) + Separator(i > 0) + parts[i]
  {
    assert parts[..i + 1][..i] == parts[..i];
  }

  /** Joining two non-empty lists puts exactly one comma between their
      renderings: entries keep their input order. */
  lemma {:induction false} JoinAppend(p: seq<string>, q: seq<string>)
    requires |p| > 0 && |q| > 0
    ensures Join(p + q) == Join(p) + "," + Join(q)
  {
    if |q| == 1 {
      assert (p + q)[..|p + q| - 1] == p;
    } else {
      var q' := q[..|q| - 1];
      JoinAppend(p, q');
      assert (p + q)[..|p + q| - 1] == p + q';
    }
  }

  /** The payload of two non-empty blocks of data, one after the other, holds
      the entries of the first block, exactly one comma, then the entries of
      the second block. */
  lemma ConcatenatedData(d1: seq<Entry>, d2: seq<Entry>, nonce: nat)
    requires AllWellFormed(d1) && AllWellFormed(d2)
    requires |d1| > 0 && |d2| > 0
    ensures AllWellFormed(d1 + d2)
    ensures Canonical(d1 + d2, nonce)
         == Open + (Join(RenderAll(d1)) + "," + Join(RenderAll(d2))) + NonceKey + Format.Decimal(nonce) + Close
  {
    var d := d1 + d2;
    forall i | 0 <= i < |d|
      ensures WellFormed(d[i])
    {
      if i >= |d1| {
        assert d[i] == d2[i - |d1|];
      }
    }
    var p1, p2 := RenderAll(d1), RenderAll(d2);
    forall i | 0 <= i < |d|
      ensures RenderAll(d)[i] == (p1 + p2)[i]
    {
      if i >= |d1| {
        assert d[i] == d2[i - |d1|];
      }
    }
    assert RenderAll(d) == p1 + p2;
    JoinAppend(p1, p2);
  }

  /** Empty block data leaves the array empty. */
  lemma EmptyData(nonce: nat)
    ensures Canonical([], nonce) == "{\"data\":[],\"nonce\":" + Format.Decimal(nonce) + "}"
  {
  }

  /** A single entry is written with no comma after it. */
  lemma SingleEntry(e: Entry, nonce: nat)
    requires WellFormed(e)
    ensures Canonical([e], nonce) == "{\"data\":[" + RenderEntry(e) + "],\"nonce\":" + Format.Decimal(nonce) + "}"
  {
  }

  /** Fields after the value do not reach the payload. */
  lemma ExtraFieldsIgnored(e: Entry, extra: seq<Value>)
    requires WellFormed(e)
    ensures WellFormed(Entry(e.fields + extra))
    ensures RenderEntry(Entry(e.fields + extra)) == RenderEntry(e)
  {
  }

  /** A text value is printed without quotes: `["b",x]`, not `["b","x"]`. */
  lemma TextValueUnquoted(name: string, x: string)
    ensures RenderEntry(Entry([Text(name), Text(x)])) == "[\"" + name + "\"," + x + "]"
  {
  }

  /** The payload for `[("a", 1), ("b", "x")]` and nonce 0. */
  lemma TwoEntryExample()
    ensures Canonical([Entry([Text("a"), Number("1")]), Entry([Text("b"), Text("x")])], 0)
         == "{\"data\":[[\"a\",1],[\"b\",x]],\"nonce\":0}"
  {
    var e1, e2 := Entry([Text("a"), Number("1")]), Entry([Text("b"), Text("x")]);
    assert RenderAll([e1, e2]) == [RenderEntry(e1), RenderEntry(e2)];
    JoinPair(RenderEntry(e1), RenderEntry(e2));
    ExampleEntries();
    assert Format.Decimal(0) == "0";
    assert Canonical([e1, e2], 0) == Open + ("[\"a\",1]" + "," + "[\"b\",x]") + NonceKey + "0" + Close;
    ExampleText();
  }

  lemma ExampleText()
    ensures Open + ("[\"a\",1]" + "," + "[\"b\",x]") + NonceKey + "0" + Close
         == "{\"data\":[[\"a\",1],[\"b\",x]],\"nonce\":0}"
  {
  }

  lemma JoinPair(x: string, y: string)
    ensures Join([x, y]) == x + "," + y
  {
    assert [x, y][..1] == [x];
  }

  lemma ExampleEntries()
    ensures RenderEntry(Entry([Text("a"), Number("1")])) == "[\"a\",1]"
    ensures RenderEntry(Entry([Text("b"), Text("x")])) == "[\"b\",x]"
  {
  }

  /** For fixed data, payloads for different nonces share everything up to
      and including `"nonce":`; the payload for nonce 0 with its final "0}"
      removed is that shared head. */
  lemma NonceOnlyInTail(data: seq<Entry>, n: nat)
    requires AllWellFormed(data)
    ensures var p0 := Canonical(data, 0);
            var head := p0[..|p0| - 2];
            && head[|head| - 8..] == "\"nonce\":"
            && Canonical(data, n) == head + Format.Decimal(n) + "}"
  {
  }

  /** For fixed data, the payload determines the nonce: distinct nonces give
      distinct payloads, because everything before the decimal digits is the
      same and the digits are followed by the same closing brace. */
  lemma NonceInjective(data: seq<Entry>, n: nat, m: nat)
    requires AllWellFormed(data)
    ensures Canonical(data, n) == Canonical(data, m) ==> n == m
  {
    if Canonical(data, n) == Canonical(data, m) {
      var head := Open + Join(RenderAll(data)) + NonceKey;
      var pn := Canonical(data, n);
      var pm := Canonical(data, m);
      assert pn == head + Format.Decimal(n) + Close;
      assert pm == head + Format.Decimal(m) + Close;
      assert pn[|head|..|pn| - 1] == Format.Decimal(n);
      assert pm[|head|..|pm| - 1] == Format.Decimal(m);
      Format.DecimalInjective(n, m);
    }
  }
}
