/**
  List markers of the exceptions file. A marker opens an item only with text behind it; on
  a line of its own it is passed over, so that its fields go to the item above.
 */
module AuditMarkers {
  import opened Options
  import opened AuditExceptions

  /** The field that a text holds, if it holds one. */
  function FieldOf(text: string): Entry {
    match SplitKv(text)
    case None => map[]
    case Some((key, value)) => map[key := value]
  }

  lemma MarkerStep(st: State, raw: string)
    requires "- " <= Strip(raw) && Step(st, raw).Some?
    ensures Step(st, raw).value == State(st.Finished(), Some(FieldOf(Strip(Strip(raw)[2..]))))
  {
    MarkerIsNotIgnored(Strip(raw));
    SplitKvFails(Strip(Strip(raw)[2..]));
  }

  lemma FieldStep(st: State, raw: string)
    requires !("- " <= Strip(raw)) && !Ignored(Strip(raw)) && st.current.Some?
    ensures Step(st, raw) == Some(State(st.done, Some(st.current.value + FieldOf(Strip(raw)))))
  {
    var fields := st.current.value;
    SplitKvFails(Strip(raw));
    match SplitKv(Strip(raw))
    case None => assert fields + map[] == fields;
    case Some((key, value)) => assert fields[key := value] == fields + map[key := value];
  }

  /** A line that can be read opens an item, whatever was read before, if and only if its
      stripped text starts with a marker and a blank; the item starts with the field behind
      the marker. Any other line that is not ignored gives its field to the current item,
      where it takes the place of a field with the same key. */
  lemma OpensExactly(st: State, raw: string)
    requires Step(st, raw).Some?
    ensures var st', line := Step(st, raw).value, Strip(raw);
            if "- " <= line then st' == State(st.Finished(), Some(FieldOf(Strip(line[2..]))))
            else if st.current.None? || Ignored(line) then st' == st
            else st' == State(st.done, Some(st.current.value + FieldOf(line)))
  {
    if "- " <= Strip(raw) {
      MarkerStep(st, raw);
    } else if st.current.Some? && !Ignored(Strip(raw)) {
      FieldStep(st, raw);
    }
  }

  /** An item as it may be written: with its first field behind the marker, or with all
      of them below it. */
  datatype Item = Inline(fields: seq<PrintedField>) | Below(fields: seq<PrintedField>)

  function FieldLines(fields: seq<PrintedField>): seq<string> {
    if fields == [] then []
    else FieldLines(fields[..|fields| - 1]) + [fields[|fields| - 1].Line("")]
  }

  function Written(item: Item): seq<string> {
    match item
    case Inline(fields) => ItemLines(fields)
    case Below(fields) => ["-"] + FieldLines(fields)
  }

  function AllWritten(items: seq<Item>): seq<string> {
    if items == [] then [] else AllWritten(items[..|items| - 1]) + Written(items[|items| - 1])
  }

  predicate Writable(item: Item) {
    match item
    case Inline(fields) => Printable(fields)
    case Below(fields) =>
      fields != [] && forall i :: 0 <= i < |fields| ==> Following(fields[i])
  }

  /** What the author means: an entry for every item. */
  function Intended(items: seq<Item>): (es: seq<Entry>)
    ensures |es| == |items|
  {
    if items == [] then [] else Intended(items[..|items| - 1]) + [Meaning(items[|items| - 1].fields)]
  }

  /** What is read: the fields below a lone marker are merged into the entry above, and
      lost if there is none. */
  function Merged(items: seq<Item>): seq<Entry> {
    if items == [] then [] else MergedInto(Merged(items[..|items| - 1]), items[|items| - 1])
  }

  function MergedInto(es: seq<Entry>, item: Item): seq<Entry> {
    match item
    case Inline(fields) => es + [Meaning(fields)]
    case Below(fields) => if es == [] then es else es[..|es| - 1] + [es[|es| - 1] + Meaning(fields)]
  }

  predicate AllFilled(es: seq<Entry>) {
    forall i :: 0 <= i < |es| ==> es[i] != map[]
  }

  /** The parser after the given entries, the last of which may still grow. */
  function Holding(es: seq<Entry>): State {
    if es == [] then START else State(es[..|es| - 1], Some(es[|es| - 1]))
  }

  /** Fields are merged into the item that is being read, and dropped if there is none. */
  function Grown(st: State, m: Entry): State {
    if st.current.None? then st else State(st.done, Some(st.current.value + m))
  }

  lemma RunField(st: State, f: PrintedField)
    requires Following(f)
    ensures Run(st, [f.Line("")]) == Some(Grown(st, map[f.key := f.value]))
  {
    OneLine(st, f.Line(""));
    if st.current.None? {
      StrippedLine(f);
    } else {
      StepFollowing(st, f);
      assert st.current.value[f.key := f.value] == st.current.value + map[f.key := f.value];
    }
  }

  lemma OneLine(st: State, line: string)
    ensures Run(st, [line]) == Step(st, line)
  {
    assert [line][1..] == [];
  }

  lemma GrownTwice(st: State, m: Entry, key: string, value: string)
    ensures Grown(Grown(st, m), map[key := value]) == Grown(st, m[key := value])
    ensures Grown(st, map[]) == st
  {
    if st.current.Some? {
      var e := st.current.value;
      assert e + m + map[key := value] == e + m[key := value];
      assert e + map[] == e;
    }
  }

  lemma {:induction false} RunFields(st: State, fields: seq<PrintedField>)
    requires forall i :: 0 <= i < |fields| ==> Following(fields[i])
    ensures Run(st, FieldLines(fields)) == Some(Grown(st, Meaning(fields)))
  {
    if fields == [] {
      GrownTwice(st, map[], "", "");
    } else {
      var init := fields[..|fields| - 1];
      var f := fields[|fields| - 1];
      assert forall i :: 0 <= i < |init| ==> init[i] == fields[i];
      RunFields(st, init);
      RunConcat(st, FieldLines(init), [f.Line("")]);
      RunField(Grown(st, Meaning(init)), f);
      GrownTwice(st, Meaning(init), f.key, f.value);
    }
  }

  lemma RunInline(es: seq<Entry>, fields: seq<PrintedField>)
    requires Printable(fields) && AllFilled(es)
    ensures Run(Holding(es), ItemLines(fields)) == Some(Holding(es + [Meaning(fields)]))
  {
    RunItem(Holding(es), fields);
    HoldingSnoc(es, Meaning(fields));
  }

  lemma HoldingSnoc(es: seq<Entry>, m: Entry)
    requires AllFilled(es)
    ensures State(Holding(es).Finished(), Some(m)) == Holding(es + [m])
  {
    HoldingFinished(es);
    assert (es + [m])[..|es|] == es;
  }

  lemma HoldingFinished(es: seq<Entry>)
    requires AllFilled(es)
    ensures Holding(es).Finished() == es
  {
    if es != [] {
      assert es[..|es| - 1] + [es[|es| - 1]] == es;
    }
  }

  lemma RunBelow(es: seq<Entry>, fields: seq<PrintedField>)
    requires forall i :: 0 <= i < |fields| ==> Following(fields[i])
    ensures Run(Holding(es), ["-"] + FieldLines(fields)) ==
            Some(if es == [] then START else Holding(es[..|es| - 1] + [es[|es| - 1] + Meaning(fields)]))
  {
    var st := Holding(es);
    RunFields(st, fields);
    StripTrimmed("-");
    var lines := ["-"] + FieldLines(fields);
    assert Step(st, lines[0]) == Some(st) && lines[1..] == FieldLines(fields);
    if es != [] {
      var n := |es| - 1;
      assert (es[..n] + [es[n] + Meaning(fields)])[..n] == es[..n];
    }
  }

  lemma RunWritten(es: seq<Entry>, item: Item)
    requires Writable(item) && AllFilled(es)
    ensures Run(Holding(es), Written(item)) == Some(Holding(MergedInto(es, item)))
  {
    if item.Inline? {
      RunInline(es, item.fields);
    } else {
      RunBelow(es, item.fields);
    }
  }

  lemma EntriesStayFilled(es: seq<Entry>, item: Item)
    requires Writable(item) && AllFilled(es)
    ensures AllFilled(MergedInto(es, item))
  {
    var key := item.fields[|item.fields| - 1].key;
    assert key in Meaning(item.fields);
    if es != [] {
      assert key in es[|es| - 1] + Meaning(item.fields);
    }
  }

  lemma {:induction false} RunAllWritten(items: seq<Item>)
    requires forall i :: 0 <= i < |items| ==> Writable(items[i])
    ensures Run(START, AllWritten(items)) == Some(Holding(Merged(items))) && AllFilled(Merged(items))
  {
    if items != [] {
      var init, last := items[..|items| - 1], items[|items| - 1];
      RunAllWritten(init);
      RunConcat(START, AllWritten(init), Written(last));
      RunWritten(Merged(init), last);
      EntriesStayFilled(Merged(init), last);
    }
  }

  /** A list written with lone markers is read as the merged entries. */
  lemma LoneMarkersMerge(items: seq<Item>)
    requires forall i :: 0 <= i < |items| ==> Writable(items[i])
    ensures Parsed(AllWritten(items)) == Some(Merged(items))
  {
    RunAllWritten(items);
    HoldingFinished(Merged(items));
  }

  lemma {:induction false} MergedCounts(items: seq<Item>)
    ensures |Merged(items)| <= |items|
    ensures |Merged(items)| == |items| ==> forall i :: 0 <= i < |items| ==> items[i].Inline?
    ensures (forall i :: 0 <= i < |items| ==> items[i].Inline?) ==> Merged(items) == Intended(items)
  {
    if items != [] {
      MergedCounts(items[..|items| - 1]);
    }
  }

  /** The list is read as it is meant if and only if no marker stands on a line of its own. */
  lemma ReadAsIntendedExactly(items: seq<Item>)
    requires forall i :: 0 <= i < |items| ==> Writable(items[i])
    ensures Parsed(AllWritten(items)) == Some(Intended(items)) <==> forall i :: 0 <= i < |items| ==> items[i].Inline?
  {
    LoneMarkersMerge(items);
    MergedCounts(items);
  }
}
