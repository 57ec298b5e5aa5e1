/**
 A server-sent event and its text/event-stream encoding (section 9.2,
 "Server-sent events", of the WHATWG HTML Living Standard): an optional
 `id` line, an optional `retry` line, an optional `event` line, one `data`
 line per line of the payload, and a blank line that ends the event.
 */
module Messages {
  import opened Text

  /** An event: its id, payload, event name, reconnection hint in
      milliseconds and the version clients filter on. */
  datatype Message = Message(id: string, data: string, event: string, retry: int, version: int)
  {
    /** The encoding, built the way the source builds it: four guarded
        appends to a buffer, the payload's newlines rewritten in place,
        then the blank line. */
    method String() returns (s: string)
      ensures s == EventStream(this)
    {
      var buffer := "";
      if |id| > 0 {
        buffer := buffer + ("id: " + id + "\n");
      }
      assert buffer == Render(IdFields(this)) by { RenderSingles(this); }
      if retry > 0 {
        buffer := buffer + ("retry: " + Decimal(retry) + "\n");
      }
      assert buffer == Render(IdFields(this)) + Render(RetryFields(this)) by { RenderSingles(this); }
      if |event| > 0 {
        buffer := buffer + ("event: " + event + "\n");
      }
      assert buffer == Render(IdFields(this)) + Render(RetryFields(this)) + Render(EventFields(this)) by { RenderSingles(this); }
      if |data| > 0 {
        buffer := buffer + ("data: " + ReplaceAll(data, '\n', "\ndata: ") + "\n");
      }
      assert buffer == Render(IdFields(this)) + Render(RetryFields(this)) + Render(EventFields(this)) + Render(PayloadFields(this)) by {
        if |data| > 0 {
          DataSection(data);
        }
      }
      buffer := buffer + "\n";
      s := buffer;
      FieldsRendering(this);
    }
  }

  /** A message with version 0. */
  function NewMessage(id: string, data: string, event: string): (m: Message)
    ensures m.id == id && m.data == data && m.event == event
    ensures m.retry == 0 && m.version == 0
  {
    Message(id, data, event, 0, 0)
  }

  /** A message carrying the given version. */
  function NewMessageVer(id: string, data: string, event: string, version: int): (m: Message)
    ensures m.id == id && m.data == data && m.event == event
    ensures m.retry == 0 && m.version == version
  {
    Message(id, data, event, 0, version)
  }

  /** A message with only a payload. */
  function SimpleMessage(data: string): (m: Message)
    ensures m.id == "" && m.event == "" && m.data == data
    ensures m.retry == 0 && m.version == 0
  {
    NewMessage("", data, "")
  }

  /** A message with only a payload and a version. */
  function SimpleMessageVer(data: string, version: int): (m: Message)
    ensures m.id == "" && m.event == "" && m.data == data
    ensures m.retry == 0 && m.version == version
  {
    NewMessageVer("", data, "", version)
  }

  /** One line of an encoded event. */
  datatype Field = IdField(id: string) | RetryField(millis: nat) | EventField(name: string) | DataField(line: string)
  {
    /** The position of the field's kind in the fixed order id, retry, event, data. */
    function Rank(): nat
    {
      match this
      case IdField(_) => 0
      case RetryField(_) => 1
      case EventField(_) => 2
      case DataField(_) => 3
    }

    /** The field as a `name: value` line. */
    function Line(): string
    {
      match this
      case IdField(v) => "id: " + v + "\n"
      case RetryField(n) => "retry: " + Decimal(n) + "\n"
      case EventField(v) => "event: " + v + "\n"
      case DataField(v) => "data: " + v + "\n"
    }
  }

  /** The id field of `m`, present only when the id is non-empty. */
  function IdFields(m: Message): seq<Field>
  {
    if |m.id| > 0 then [IdField(m.id)] else []
  }

  /** The retry field of `m`, present only when the hint is positive. */
  function RetryFields(m: Message): seq<Field>
  {
    if m.retry > 0 then [RetryField(m.retry)] else []
  }

  /** The event field of `m`, present only when the name is non-empty. */
  function EventFields(m: Message): seq<Field>
  {
    if |m.event| > 0 then [EventField(m.event)] else []
  }

  /** The id, retry and event fields of `m`, in that order. */
  function HeaderFields(m: Message): seq<Field>
  {
    IdFields(m) + RetryFields(m) + EventFields(m)
  }

  /** One data field per line. */
  function DataFields(lines: seq<string>): (fs: seq<Field>)
    ensures |fs| == |lines|
    ensures forall i :: 0 <= i < |fs| ==> fs[i] == DataField(lines[i])
    decreases |lines|
  {
    if |lines| == 0 then [] else [DataField(lines[0])] + DataFields(lines[1..])
  }

  /** The data fields of `m`: none for an empty payload, else one per line. */
  function PayloadFields(m: Message): seq<Field>
  {
    if |m.data| > 0 then DataFields(Split(m.data, '\n')) else []
  }

  /** The fields of `m` in the order they are written. */
  function Fields(m: Message): seq<Field>
  {
    HeaderFields(m) + PayloadFields(m)
  }

  /** The lines of the fields, one after another. */
  function Render(fs: seq<Field>): string
    decreases |fs|
  {
    if |fs| == 0 then "" else fs[0].Line() + Render(fs[1..])
  }

  /** The event-stream encoding of `m`: its field lines and a blank line. */
  function EventStream(m: Message): string
  {
    Render(Fields(m)) + "\n"
  }

  /** The payload lines carried by the data fields, in order. */
  function Payload(fs: seq<Field>): seq<string>
    decreases |fs|
  {
    if |fs| == 0 then []
    else (if fs[0].DataField? then [fs[0].line] else []) + Payload(fs[1..])
  }

  /** How many of the fields are of the kind with the given rank. */
  function CountRank(fs: seq<Field>, rank: nat): nat
    decreases |fs|
  {
    if |fs| == 0 then 0
    else (if fs[0].Rank() == rank then 1 else 0) + CountRank(fs[1..], rank)
  }

  /** The lines of the fields, in order. */
  function Lines(fs: seq<Field>): (ls: seq<string>)
    ensures |ls| == |fs|
  {
    seq(|fs|, i requires 0 <= i < |fs| => fs[i].Line())
  }

  /** The strings, one after another. */
  function Concat(ls: seq<string>): string
    decreases |ls|
  {
    if |ls| == 0 then "" else ls[0] + Concat(ls[1..])
  }

  /** Concatenating distributes over appending. */
  lemma {:induction false} ConcatAppend(x: seq<string>, y: seq<string>)
    ensures Concat(x + y) == Concat(x) + Concat(y)
    decreases |x|
  {
    if |x| == 0 {
      assert x + y == y;
    } else {
      ConcatAppend(x[1..], y);
      assert (x + y)[0] == x[0] && (x + y)[1..] == x[1..] + y;
    }
  }

  /** Rendering is concatenating the lines. */
  lemma {:induction false} RenderIsConcat(fs: seq<Field>)
    ensures Render(fs) == Concat(Lines(fs))
    decreases |fs|
  {
    if |fs| > 0 {
      RenderIsConcat(fs[1..]);
      assert Lines(fs)[1..] == Lines(fs[1..]);
    }
  }

  /** The lines of appended fields are the lines appended. */
  lemma LinesAppend(a: seq<Field>, b: seq<Field>)
    ensures Lines(a + b) == Lines(a) + Lines(b)
  {
    forall i | 0 <= i < |a + b|
      ensures Lines(a + b)[i] == (Lines(a) + Lines(b))[i]
    {
      if i < |a| {
        assert (a + b)[i] == a[i];
      } else {
        assert (a + b)[i] == b[i - |a|];
      }
    }
  }

  /** Rendering distributes over concatenation. */
  lemma RenderAppend(a: seq<Field>, b: seq<Field>)
    ensures Render(a + b) == Render(a) + Render(b)
  {
    RenderIsConcat(a + b);
    RenderIsConcat(a);
    RenderIsConcat(b);
    LinesAppend(a, b);
    ConcatAppend(Lines(a), Lines(b));
  }

  /** Payload distributes over concatenation. */
  lemma {:induction false} PayloadAppend(a: seq<Field>, b: seq<Field>)
    ensures Payload(a + b) == Payload(a) + Payload(b)
    decreases |a|
  {
    if |a| == 0 {
      assert a + b == b;
    } else {
      PayloadAppend(a[1..], b);
      assert (a + b)[1..] == a[1..] + b;
    }
  }

  /** Counting distributes over concatenation. */
  lemma {:induction false} CountRankAppend(a: seq<Field>, b: seq<Field>, rank: nat)
    ensures CountRank(a + b, rank) == CountRank(a, rank) + CountRank(b, rank)
    decreases |a|
  {
    if |a| == 0 {
      assert a + b == b;
    } else {
      CountRankAppend(a[1..], b, rank);
      assert (a + b)[1..] == a[1..] + b;
    }
  }

  /** Each optional header field renders as its guarded line. */
  lemma RenderSingles(m: Message)
    ensures Render(IdFields(m)) == if |m.id| > 0 then "id: " + m.id + "\n" else ""
    ensures Render(RetryFields(m)) == if m.retry > 0 then "retry: " + Decimal(m.retry) + "\n" else ""
    ensures Render(EventFields(m)) == if |m.event| > 0 then "event: " + m.event + "\n" else ""
  {
    SingleRendering(IdField(m.id));
    SingleRendering(EventField(m.event));
    if m.retry > 0 {
      SingleRendering(RetryField(m.retry));
    }
  }

  /** A single field renders as its line. */
  lemma SingleRendering(f: Field)
    ensures Render([f]) == f.Line()
  {
    assert [f][1..] == [];
  }

  /** The encoding's field lines are the four groups' lines in order. */
  lemma FieldsRendering(m: Message)
    ensures Render(Fields(m)) == Render(IdFields(m)) + Render(RetryFields(m)) + Render(EventFields(m)) + Render(PayloadFields(m))
  {
    RenderAppend(IdFields(m), RetryFields(m));
    RenderAppend(IdFields(m) + RetryFields(m), EventFields(m));
    RenderAppend(HeaderFields(m), PayloadFields(m));
  }

  /** Prefixing each line with `data: ` and ending it is the same as joining
      the lines with a newline followed by the prefix, between one leading
      prefix and one trailing newline. */
  lemma {:induction false} DataLinesAsJoin(lines: seq<string>)
    requires |lines| >= 1
    ensures "data: " + Join(lines, "\ndata: ") + "\n" == Render(DataFields(lines))
    decreases |lines|
  {
    if |lines| > 1 {
      DataLinesAsJoin(lines[1..]);
      assert DataFields(lines)[1..] == DataFields(lines[1..]);
    } else {
      assert DataFields(lines)[1..] == [];
    }
  }

  /** The source's data section, the payload with every newline rewritten
      into a newline and a fresh `data: ` prefix, is the line-by-line data
      fields of the payload. */
  lemma DataSection(data: string)
    ensures "data: " + ReplaceAll(data, '\n', "\ndata: ") + "\n" == Render(DataFields(Split(data, '\n')))
  {
    ReplaceIsJoinOfSplit(data, '\n', "\ndata: ");
    DataLinesAsJoin(Split(data, '\n'));
  }

  /** Every encoding ends with the blank line's newline. */
  lemma EndsWithBlankLine(m: Message)
    ensures |EventStream(m)| >= 1 && EventStream(m)[|EventStream(m)| - 1] == '\n'
  {
  }

  /** A message with nothing set encodes as the blank line alone. */
  lemma EmptyMessage(m: Message)
    requires m.id == "" && m.data == "" && m.event == "" && m.retry <= 0
    ensures EventStream(m) == "\n"
  {
  }

  /** Fields appear in the order id, retry, event, data. */
  lemma FieldOrder(m: Message)
    ensures forall i, j :: 0 <= i < j < |Fields(m)| ==> Fields(m)[i].Rank() <= Fields(m)[j].Rank()
  {
  }

  /** There is one id line iff the id is non-empty, one retry line iff the
      retry hint is positive, one event line iff the event name is
      non-empty, and one data line more than the payload has newlines iff
      the payload is non-empty. */
  lemma FieldCounts(m: Message)
    ensures CountRank(Fields(m), 0) == if |m.id| > 0 then 1 else 0
    ensures CountRank(Fields(m), 1) == if m.retry > 0 then 1 else 0
    ensures CountRank(Fields(m), 2) == if |m.event| > 0 then 1 else 0
    ensures CountRank(Fields(m), 3) == if |m.data| > 0 then multiset(m.data)['\n'] + 1 else 0
  {
    var i, r, e := IdFields(m), RetryFields(m), EventFields(m);
    var d := PayloadFields(m);
    forall rank: nat
      ensures CountRank(Fields(m), rank) == CountRank(i, rank) + CountRank(r, rank) + CountRank(e, rank) + CountRank(d, rank)
    {
      CountRankAppend(i, r, rank);
      CountRankAppend(i + r, e, rank);
      CountRankAppend(i + r + e, d, rank);
    }
    if |m.id| > 0 { CountRankSingle(IdField(m.id)); }
    if m.retry > 0 { CountRankSingle(RetryField(m.retry)); }
    if |m.event| > 0 { CountRankSingle(EventField(m.event)); }
    if |m.data| > 0 {
      DataFieldsRanks(Split(m.data, '\n'));
      SplitCount(m.data, '\n');
    }
  }

  /** A single field counts once, for its own kind. */
  lemma CountRankSingle(f: Field)
    ensures forall rank: nat :: CountRank([f], rank) == if f.Rank() == rank then 1 else 0
  {
    assert [f][1..] == [];
  }

  /** Data fields are all of the data kind. */
  lemma {:induction false} DataFieldsRanks(lines: seq<string>)
    ensures CountRank(DataFields(lines), 3) == |lines|
    ensures forall rank: nat :: rank != 3 ==> CountRank(DataFields(lines), rank) == 0
    decreases |lines|
  {
    if |lines| > 0 {
      DataFieldsRanks(lines[1..]);
      assert DataFields(lines)[1..] == DataFields(lines[1..]);
    }
  }

  /** The data lines carry the payload split at its newlines, so joining
      them with newlines gives the payload back: no newline is lost. */
  lemma PayloadPreserved(m: Message)
    ensures Payload(Fields(m)) == if |m.data| > 0 then Split(m.data, '\n') else []
    ensures |m.data| > 0 ==> Join(Payload(Fields(m)), "\n") == m.data
  {
    PayloadAppend(HeaderFields(m), PayloadFields(m));
    HeaderHasNoPayload(m);
    if |m.data| > 0 {
      DataFieldsPayload(Split(m.data, '\n'));
      JoinSplit(m.data, '\n');
    }
  }

  /** Header fields carry no payload. */
  lemma HeaderHasNoPayload(m: Message)
    ensures Payload(HeaderFields(m)) == []
  {
    var i, r, e := IdFields(m), RetryFields(m), EventFields(m);
    PayloadAppend(i, r);
    PayloadAppend(i + r, e);
  }

  /** Data fields carry exactly their lines. */
  lemma {:induction false} DataFieldsPayload(lines: seq<string>)
    ensures Payload(DataFields(lines)) == lines
    decreases |lines|
  {
    if |lines| > 0 {
      DataFieldsPayload(lines[1..]);
      assert DataFields(lines)[1..] == DataFields(lines[1..]);
    }
  }

  /** The payload `a\nb` splits into the lines `a` and `b`. */
  lemma ExampleSplit()
    ensures Split("a\nb", '\n') == ["a", "b"]
  {
    assert "b"[1..] == "";
    assert [""][1..] == [];
    assert ['b'] + "" == "b";
    assert Split("b", '\n') == ["b"];
    assert "a\nb"[1..] == "\nb";
    assert "\nb"[1..] == "b";
    assert Split("\nb", '\n') == ["", "b"];
    assert ['a'] + "" == "a";
    assert ["", "b"][1..] == ["b"];
  }

  /** Five fields render as their five lines. */
  lemma RenderFive(f0: Field, f1: Field, f2: Field, f3: Field, f4: Field)
    ensures Render([f0, f1, f2, f3, f4]) == f0.Line() + (f1.Line() + (f2.Line() + (f3.Line() + f4.Line())))
  {
    SingleRendering(f4);
    assert [f3, f4][1..] == [f4];
    assert Render([f3, f4]) == f3.Line() + f4.Line();
    assert [f2, f3, f4][1..] == [f3, f4];
    assert Render([f2, f3, f4]) == f2.Line() + Render([f3, f4]);
    assert [f1, f2, f3, f4][1..] == [f2, f3, f4];
    assert Render([f1, f2, f3, f4]) == f1.Line() + Render([f2, f3, f4]);
    assert [f0, f1, f2, f3, f4][1..] == [f1, f2, f3, f4];
    assert Render([f0, f1, f2, f3, f4]) == f0.Line() + Render([f1, f2, f3, f4]);
  }

  /** 3000 is written `3000`. */
  lemma ExampleDecimal()
    ensures Decimal(3000) == "3000"
  {
    assert Decimal(3) == "3";
    assert Decimal(30) == "30";
    assert Decimal(300) == "300";
  }

  /** The example message's field lines. */
  lemma ExampleLines()
    ensures IdField("7").Line() == "id: 7\n"
    ensures RetryField(3000).Line() == "retry: 3000\n"
    ensures EventField("update").Line() == "event: update\n"
    ensures DataField("a").Line() == "data: a\n"
    ensures DataField("b").Line() == "data: b\n"
  {
    ExampleDecimal();
  }

  /** The example message's fields. */
  lemma ExampleFields()
    ensures Fields(NewMessage("7", "a\nb", "update").(retry := 3000))
         == [IdField("7"), RetryField(3000), EventField("update"), DataField("a"), DataField("b")]
  {
    ExampleSplit();
    assert DataFields(["a", "b"]) == [DataField("a"), DataField("b")];
  }

  /** A message with id 7, a two-line payload, event `update` and a
      3000 ms retry hint stamped on it encodes as below. */
  lemma ExampleEncoding()
    ensures EventStream(NewMessage("7", "a\nb", "update").(retry := 3000))
         == "id: 7\n" + ("retry: 3000\n" + ("event: update\n" + ("data: a\n" + "data: b\n"))) + "\n"
  {
    ExampleFields();
    ExampleLines();
    RenderFive(IdField("7"), RetryField(3000), EventField("update"), DataField("a"), DataField("b"));
  }
}
