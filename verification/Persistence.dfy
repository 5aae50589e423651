/** The snapshot file of src/persistence.cpp: printing, loading, the round trip between them,
    and the detection of truncated files. A file is the sequence of its bytes. */
module Persistence {
  import opened Text
  import opened Codec
  import opened Keyspace
  import opened Db
  import opened Lru
  import opened Stores
  import opened TimedMap
  import opened Restore

  const HEADER: string := "REDIS-CLONE-RDB v2"
  const HEADER_V1: string := "REDIS-CLONE-RDB v1"
  const FOOTER: string := "EOF"

  // ----- printing -----

  function PrintedItems(xs: seq<string>): string {
    if xs == [] then "" else PrintedItems(xs[..|xs| - 1]) + (" " + Encode(xs[|xs| - 1]))
  }

  function Fields(e: SnapshotEntry): string {
    Encode(e.key) + " " + (Show(e.deadline) + " " +
    match e.value
    case Str(text) => Encode(text)
    case Lst(items) => Show(|items|) + PrintedItems(items))
  }

  function Record(e: SnapshotEntry): string {
    (if e.value.Str? then "S " else "L ") + Fields(e)
  }

  function Records(es: seq<SnapshotEntry>): string {
    if es == [] then "" else Records(es[..|es| - 1]) + (Record(es[|es| - 1]) + "\n")
  }

  function FileText(es: seq<SnapshotEntry>): string {
    HEADER + "\n" + (Records(es) + (FOOTER + "\n"))
  }

  // ----- loading -----

  /** One `getline`: the bytes up to the next line feed, without a trailing CR. */
  function Line(f: string): string {
    var n := Find(f, '\n');
    if n > 0 && f[n - 1] == '\r' then f[..n - 1] else f[..n]
  }

  function AfterLine(f: string): (r: string)
    ensures f != "" ==> |r| < |f|
  {
    var n := Find(f, '\n');
    if n < |f| then f[n + 1..] else ""
  }

  function Field(s: string): string {
    s[..Find(s, ' ')]
  }

  function AfterField(s: string): string {
    var n := Find(s, ' ');
    if n < |s| then s[n + 1..] else ""
  }

  /** Pushes `n` encoded elements; false when one of them does not decode. */
  function LoadItems(s: State, key: string, text: string, n: nat): (State, bool)
    decreases n
  {
    if n == 0 then (s, true)
    else
      var item := Decode(Field(text));
      if item == None then (s, false)
      else LoadItems(Push(s, key, item.value, false).0, key, AfterField(text), n - 1)
  }

  function LoadList(s: State, key: string, deadline: int, text: string): (State, bool) {
    var count := Stoi(Field(text));
    if count == None || count.value <= 0 then (s, false)
    else
      var r := LoadItems(s, key, AfterField(text), count.value);
      if r.1 then (WithDeadline(r.0, key, deadline), true) else (Drop(r.0, key), false)
  }

  function LoadString(s: State, key: string, deadline: int, text: string): (State, bool) {
    var value := Decode(text);
    if value == None then (s, false)
    else (WithDeadline(Set(s, key, value.value), key, deadline), true)
  }

  /** The record after its type letter; the flag says whether a key was loaded. */
  function LoadFields(s: State, now: nat, kind: char, record: string): (State, bool) {
    var s1 := Find(record, ' ');
    if s1 == |record| || Find(record[s1 + 1..], ' ') == |record| - s1 - 1 then (s, false)
    else
      var tail := record[s1 + 1..];
      var key, deadline := Decode(record[..s1]), Stoll(Field(tail));
      if key == None || deadline == None then (s, false)
      else if deadline.value != -1 && now >= deadline.value then (s, false)
      else if kind == 'S' then LoadString(s, key.value, deadline.value, AfterField(tail))
      else if kind == 'L' then LoadList(s, key.value, deadline.value, AfterField(tail))
      else (s, false)
  }

  function LoadRecord(s: State, now: nat, v2: bool, line: string): (State, bool) {
    if line == "" then (s, false)
    else if !v2 then LoadFields(s, now, 'S', line)
    else if |line| < 3 || line[1] != ' ' then (s, false)
    else LoadFields(s, now, line[0], line[2..])
  }

  datatype Loaded = Loaded(db: State, keys: nat, foundFooter: bool)

  function LoadLines(s: State, now: nat, v2: bool, f: string, keys: nat): Loaded
    decreases |f|
  {
    if f == "" then Loaded(s, keys, false)
    else if Line(f) == FOOTER then Loaded(s, keys, true)
    else
      var r := LoadRecord(s, now, v2, Line(f));
      LoadLines(r.0, now, v2, AfterLine(f), keys + if r.1 then 1 else 0)
  }

  datatype LoadError = NoError | EmptyFile | UnknownFormat | Truncated

  datatype LoadResult = LoadResult(success: bool, keysLoaded: nat, error: LoadError)

  /** `load`; None stands for a file that does not exist. */
  function Load(s: State, now: nat, file: Option<string>): (State, LoadResult) {
    if file == None then (s, LoadResult(true, 0, NoError))
    else if file.value == "" then (s, LoadResult(false, 0, EmptyFile))
    else if Line(file.value) != HEADER && Line(file.value) != HEADER_V1 then
      (s, LoadResult(false, 0, UnknownFormat))
    else
      var r := LoadLines(s, now, Line(file.value) == HEADER, AfterLine(file.value), 0);
      (r.db, LoadResult(true, r.keys, if r.foundFooter then NoError else Truncated))
  }

  // ----- one printed record -----

  predicate OneLine(t: string) {
    '\n' !in t && '\r' !in t
  }

  lemma ShowOneLine(n: int)
    ensures OneLine(Show(n)) && ' ' !in Show(n)
  {
    var s := Show(n);
    assert forall i :: 0 <= i < |s| ==> IsDigit(s[i]) || s[i] == '-';
  }

  lemma {:induction false} ItemsOneLine(xs: seq<string>)
    ensures OneLine(PrintedItems(xs))
  {
    if xs != [] {
      ItemsOneLine(xs[..|xs| - 1]);
      EncodeSeparatorFree(xs[|xs| - 1]);
    }
  }

  lemma RecordOneLine(e: SnapshotEntry)
    ensures OneLine(Record(e)) && Record(e) != FOOTER && |Record(e)| >= 3
  {
    hide Encode, Show, PrintedItems;
    EncodeSeparatorFree(e.key);
    ShowOneLine(e.deadline);
    match e.value {
      case Str(text) => EncodeSeparatorFree(text);
      case Lst(items) =>
        ItemsOneLine(items);
        ShowOneLine(|items|);
    }
    assert Record(e)[1] == ' ';
  }

  lemma LineOf(t: string, rest: string)
    requires OneLine(t)
    ensures Line(t + ("\n" + rest)) == t && AfterLine(t + ("\n" + rest)) == rest
    ensures t != "" ==> Line(t) == t && AfterLine(t) == ""
  {
    FindAfter(t, '\n', rest);
    assert t + ("\n" + rest) == t + ['\n'] + rest;
    assert (t + ("\n" + rest))[..|t|] == t;
    assert Find(t, '\n') == |t|;
    assert t[..|t|] == t;
  }

  /** A line of a file with CRLF line ends is the same line. */
  lemma LineOfCrlf(t: string, rest: string)
    requires OneLine(t)
    ensures Line(t + (CRLF + rest)) == t && AfterLine(t + (CRLF + rest)) == rest
  {
    var f := t + (CRLF + rest);
    FindAfter(t + "\r", '\n', rest);
    assert f == (t + "\r") + ['\n'] + rest;
    assert f[|t|] == '\r' && f[..|t|] == t;
    assert f[|t| + 2..] == rest;
  }

  lemma FieldOf(t: string, rest: string)
    requires ' ' !in t
    ensures var s := t + " " + rest; Find(s, ' ') == |t| && Field(s) == t && AfterField(s) == rest
    ensures Field(t) == t && AfterField(t) == ""
  {
    FindAfter(t, ' ', rest);
    assert t + " " + rest == t + [' '] + rest;
    assert (t + " " + rest)[..|t|] == t;
    assert Find(t, ' ') == |t|;
    assert t[..|t|] == t;
  }

  /** The elements of a list, as the loader sees them: without the leading blank. */
  function ItemsText(xs: seq<string>): string
    requires xs != []
  {
    if |xs| == 1 then Encode(xs[0]) else Encode(xs[0]) + " " + ItemsText(xs[1..])
  }

  lemma {:induction false} ItemsAre(xs: seq<string>)
    requires xs != []
    ensures PrintedItems(xs) == " " + ItemsText(xs)
  {
    hide Encode;
    var front, last := xs[..|xs| - 1], xs[|xs| - 1];
    if |xs| == 1 {
      assert PrintedItems(front) == "";
    } else {
      ItemsAre(front);
      ItemsTextSnoc(front, last);
      assert front + [last] == xs;
      ConcatAssoc(" ", ItemsText(front), " " + Encode(last));
    }
  }

  lemma {:induction false} ItemsTextSnoc(xs: seq<string>, x: string)
    requires xs != []
    ensures ItemsText(xs + [x]) == ItemsText(xs) + (" " + Encode(x))
  {
    var ys := xs + [x];
    if |xs| == 1 {
      assert ys[1..] == [x];
    } else {
      assert ys[1..] == xs[1..] + [x];
      ItemsTextSnoc(xs[1..], x);
    }
  }

  lemma {:induction false} LoadItemsText(s: State, key: string, xs: seq<string>)
    requires xs != []
    ensures LoadItems(s, key, ItemsText(xs), |xs|) == (PushAll(s, key, xs), true)
    decreases |xs|
  {
    var x, rest := xs[0], xs[1..];
    EncodeSeparatorFree(x);
    DecodeEncode(x);
    var t := Push(s, key, x, false).0;
    PushAllCons(s, key, xs);
    if |xs| == 1 {
      FieldOf(Encode(x), "");
      assert rest == [];
    } else {
      FieldOf(Encode(x), ItemsText(rest));
      LoadItemsText(t, key, rest);
    }
  }

  lemma {:induction false} PushAllCons(s: State, key: string, xs: seq<string>)
    requires xs != []
    ensures PushAll(s, key, xs) == PushAll(Push(s, key, xs[0], false).0, key, xs[1..])
    decreases |xs|
  {
    hide Push;
    if |xs| == 1 {
      assert xs[..0] == [] && xs[1..] == [];
      assert PushAll(s, key, []) == s;
    } else {
      var front := xs[..|xs| - 1];
      PushAllCons(s, key, front);
      assert front[1..] == xs[1..][..|xs| - 2];
    }
  }

  /** What the file format can carry: deadlines of 64 bits, list lengths of an int. */
  predicate Printable(e: SnapshotEntry) {
    && LLONG_MIN <= e.deadline <= LLONG_MAX
    && (e.value.Lst? ==> 0 < |e.value.items| <= INT_MAX)
  }

  lemma LoadListPrinted(s: State, key: string, deadline: int, items: seq<string>)
    requires 0 < |items| <= INT_MAX
    ensures LoadList(s, key, deadline, Show(|items|) + PrintedItems(items)) ==
            (WithDeadline(PushAll(s, key, items), key, deadline), true)
  {
    hide Stoi, LoadItems, PushAll, PrintedItems, ItemsText, Show;
    ItemsAre(items);
    ShowOneLine(|items|);
    FieldOf(Show(|items|), ItemsText(items));
    assert Show(|items|) + (" " + ItemsText(items)) == Show(|items|) + " " + ItemsText(items);
    ShowParses(|items|);
    LoadItemsText(s, key, items);
  }

  lemma LoadFieldsPrinted(s: State, now: nat, kind: char, key: string, deadline: int, tail: string)
    requires LLONG_MIN <= deadline <= LLONG_MAX
    ensures LoadFields(s, now, kind, Encode(key) + " " + (Show(deadline) + " " + tail)) ==
            if deadline != -1 && now >= deadline then (s, false)
            else if kind == 'S' then LoadString(s, key, deadline, tail)
            else if kind == 'L' then LoadList(s, key, deadline, tail)
            else (s, false)
  {
    hide Stoll, Show, Encode, Decode, LoadString, LoadList;
    EncodeSeparatorFree(key);
    DecodeEncode(key);
    var rest := Show(deadline) + " " + tail;
    FieldOf(Encode(key), rest);
    ShowOneLine(deadline);
    FieldOf(Show(deadline), tail);
    ShowParses(deadline);
    var record := Encode(key) + " " + rest;
    assert record[..|Encode(key)|] == Encode(key) && record[|Encode(key)| + 1..] == rest;
  }

  /** The loader does with a printed record what restoring its entry does, unless it has expired. */
  lemma LoadPrinted(s: State, now: nat, e: SnapshotEntry)
    requires Printable(e)
    ensures LoadRecord(s, now, true, Record(e)) ==
            if Dead(EntryOf(e), now) then (s, false) else (RestoreEntry(s, e), true)
  {
    hide LoadFields, Show, Encode, PrintedItems, LoadList, Set, PushAll, WithDeadline;
    RecordOneLine(e);
    assert Record(e)[2..] == Fields(e);
    match e.value {
      case Str(text) =>
        DecodeEncode(text);
        LoadFieldsPrinted(s, now, 'S', e.key, e.deadline, Encode(text));
      case Lst(items) =>
        LoadListPrinted(s, e.key, e.deadline, items);
        LoadFieldsPrinted(s, now, 'L', e.key, e.deadline, Show(|items|) + PrintedItems(items));
    }
  }

  /** Files of the older format have only strings and no type letter. */
  lemma LoadPrintedV1(s: State, now: nat, e: SnapshotEntry)
    requires Printable(e) && e.value.Str?
    ensures LoadRecord(s, now, false, Fields(e)) ==
            if Dead(EntryOf(e), now) then (s, false) else (RestoreEntry(s, e), true)
  {
    hide LoadFields, Show, Encode, Set, WithDeadline;
    DecodeEncode(e.value.text);
    LoadFieldsPrinted(s, now, 'S', e.key, e.deadline, Encode(e.value.text));
    assert Fields(e) != "";
  }

  /** What `load` answers before it looks at any record, and how it tells a file that was cut. */
  lemma LoadVerdicts(s: State, now: nat, body: string)
    ensures Load(s, now, None) == (s, LoadResult(true, 0, NoError))
    ensures Load(s, now, Some("")) == (s, LoadResult(false, 0, EmptyFile))
    ensures body != "" && Line(body) != "REDIS-CLONE-RDB v2" && Line(body) != "REDIS-CLONE-RDB v1" ==>
              Load(s, now, Some(body)) == (s, LoadResult(false, 0, UnknownFormat))
    ensures body != "" && (Line(body) == "REDIS-CLONE-RDB v2" || Line(body) == "REDIS-CLONE-RDB v1") ==>
              var r := Load(s, now, Some(body)).1;
              r.success && r.error == if HasFooter(AfterLine(body)) then NoError else Truncated
  {
    hide Line, LoadLines, AfterLine;
    if body != "" {
      LoadFindsFooter(s, now, Line(body) == HEADER, AfterLine(body), 0);
    }
  }

  // ----- malformed records -----

  lemma {:induction false} LoadItemsLocal(s: State, key: string, text: string, n: nat)
    ensures Drop(LoadItems(s, key, text, n).0, key) == Drop(s, key)
    decreases n
  {
    hide Decode, Field, AfterField;
    if n > 0 && Decode(Field(text)).Some? {
      var t := Push(s, key, Decode(Field(text)).value, false).0;
      LoadItemsLocal(t, key, AfterField(text), n - 1);
      assert t.lists - {key} == s.lists - {key};
    }
  }

  /** What the text of a record says before its value: None when a field is missing or does not read. */
  datatype Head = Head(kind: char, key: string, deadline: int, rest: string)

  function HeadOf(v2: bool, line: string): Option<Head> {
    if line == "" || (v2 && (|line| < 3 || line[1] != ' ')) then None
    else FieldsHead(if v2 then line[0] else 'S', if v2 then line[2..] else line)
  }

  function FieldsHead(kind: char, record: string): Option<Head> {
    var s1 := Find(record, ' ');
    if s1 == |record| || Find(record[s1 + 1..], ' ') == |record| - s1 - 1 then None
    else
      var tail := record[s1 + 1..];
      var key, deadline := Decode(record[..s1]), Stoll(Field(tail));
      if key == None || deadline == None then None
      else Some(Head(kind, key.value, deadline.value, AfterField(tail)))
  }

  /** The `n` encoded elements of a list all decode. */
  predicate Readable(text: string, n: nat)
    decreases n
  {
    n == 0 || (Decode(Field(text)).Some? && Readable(AfterField(text), n - 1))
  }

  /** The head of a record that has not expired. */
  predicate Fresh(h: Option<Head>, now: nat) {
    h.Some? && !(h.value.deadline != -1 && now >= h.value.deadline)
  }

  /** A list record with a positive element count. */
  predicate ReachesElements(h: Head) {
    h.kind == 'L' && Stoi(Field(h.rest)).Some? && Stoi(Field(h.rest)).value > 0
  }

  /** The text is that of a record that is loaded at `now`. */
  predicate Loads(h: Option<Head>, now: nat) {
    && Fresh(h, now)
    && if h.value.kind == 'S' then Decode(h.value.rest).Some?
       else ReachesElements(h.value) && Readable(AfterField(h.value.rest), Stoi(Field(h.value.rest)).value)
  }

  /** The text is that of a list record with an element that does not decode. */
  predicate BadElement(h: Option<Head>, now: nat) {
    && Fresh(h, now) && ReachesElements(h.value)
    && !Readable(AfterField(h.value.rest), Stoi(Field(h.value.rest)).value)
  }

  lemma LoadRecordByHead(s: State, now: nat, v2: bool, line: string)
    ensures var h := HeadOf(v2, line);
            LoadRecord(s, now, v2, line) ==
            if !Fresh(h, now) then (s, false)
            else if h.value.kind == 'S' then LoadString(s, h.value.key, h.value.deadline, h.value.rest)
            else if h.value.kind == 'L' then LoadList(s, h.value.key, h.value.deadline, h.value.rest)
            else (s, false)
  {
    hide Find, Decode, Stoll, LoadString, LoadList, Field, AfterField;
  }

  lemma {:induction false} LoadItemsReadable(s: State, key: string, text: string, n: nat)
    ensures LoadItems(s, key, text, n).1 <==> Readable(text, n)
    decreases n
  {
    hide Decode, Field, AfterField;
    if n > 0 && Decode(Field(text)).Some? {
      LoadItemsReadable(Push(s, key, Decode(Field(text)).value, false).0, key, AfterField(text), n - 1);
    }
  }

  lemma LoadListReadable(s: State, key: string, deadline: int, text: string)
    ensures var r, count := LoadList(s, key, deadline, text), Stoi(Field(text));
            && (r.1 <==> count.Some? && count.value > 0 && Readable(AfterField(text), count.value))
            && (!r.1 ==> r.0 == if count.Some? && count.value > 0 then Drop(s, key) else s)
  {
    hide Stoi, LoadItems, Field, AfterField, Drop, WithDeadline;
    var count := Stoi(Field(text));
    if count.Some? && count.value > 0 {
      LoadItemsReadable(s, key, AfterField(text), count.value);
      LoadItemsLocal(s, key, AfterField(text), count.value);
    }
  }

  /** Whether a record is loaded depends on its text and the clock alone. One that is not leaves the database as it
      was, but for a list record with an element that does not decode: that deletes its key. */
  lemma SkippedRecord(s: State, now: nat, v2: bool, line: string)
    ensures var r, h := LoadRecord(s, now, v2, line), HeadOf(v2, line);
            && (r.1 <==> Loads(h, now))
            && (!r.1 ==> r.0 == if BadElement(h, now) then Drop(s, h.value.key) else s)
  {
    hide HeadOf, LoadRecord, Set, LoadList, WithDeadline, Drop, Decode, Stoi, Field, AfterField;
    var h := HeadOf(v2, line);
    LoadRecordByHead(s, now, v2, line);
    if h.Some? {
      LoadListReadable(s, h.value.key, h.value.deadline, h.value.rest);
    }
  }

  // ----- what any record keeps, and what it can break -----

  lemma {:induction false} LoadItemsRecency(s: State, key: string, text: string, n: nat)
    ensures var t := LoadItems(s, key, text, n).0; t == s.(lists := t.lists)
    decreases n
  {
    hide Decode, Field, AfterField;
    if n > 0 && Decode(Field(text)).Some? {
      LoadItemsRecency(Push(s, key, Decode(Field(text)).value, false).0, key, AfterField(text), n - 1);
    }
  }

  lemma {:induction false} LoadItemsConsistentIff(s: State, key: string, text: string, n: nat)
    requires Consistent(s)
    ensures var r := LoadItems(s, key, text, n); n > 0 && r.1 ==> (Consistent(r.0) <==> key !in s.strings)
    ensures var r := LoadItems(s, key, text, n); n > 0 && r.1 ==> Has(r.0, key)
    decreases n
  {
    hide Decode, Field, AfterField, Consistent;
    if n > 0 && Decode(Field(text)).Some? {
      var t := Push(s, key, Decode(Field(text)).value, false).0;
      LoadItemsRecency(t, key, AfterField(text), n - 1);
      LoadItemsLocal(t, key, AfterField(text), n - 1);
      if key !in s.strings {
        PushConsistent(s, key, Decode(Field(text)).value, false);
        LoadItemsConsistentIff(t, key, AfterField(text), n - 1);
      }
      LoadItemsKeepsKey(t, key, AfterField(text), n - 1);
      StringAndList(LoadItems(t, key, AfterField(text), n - 1).0, key);
    }
  }

  lemma {:induction false} LoadItemsKeepsKey(s: State, key: string, text: string, n: nat)
    requires key in s.lists
    ensures key in LoadItems(s, key, text, n).0.lists
    decreases n
  {
    hide Decode, Field, AfterField;
    if n > 0 && Decode(Field(text)).Some? {
      LoadItemsKeepsKey(Push(s, key, Decode(Field(text)).value, false).0, key, AfterField(text), n - 1);
    }
  }

  lemma StringAndList(s: State, key: string)
    ensures key in s.strings && key in s.lists ==> !Consistent(s)
  {
  }

  lemma ConsistentWithout(s: State, t: State, key: string)
    requires Consistent(s) && Drop(t, key) == Drop(s, key)
    ensures Consistent(Drop(t, key))
  {
  }

  lemma LoadListConsistentIff(s: State, key: string, deadline: int, text: string)
    requires Consistent(s)
    ensures var r := LoadList(s, key, deadline, text); Consistent(r.0) <==> !(r.1 && key in s.strings)
  {
    hide Consistent, Stoi, LoadItems, Field, AfterField, Drop, WithDeadline;
    var count := Stoi(Field(text));
    if count.Some? && count.value > 0 {
      var r := LoadItems(s, key, AfterField(text), count.value);
      LoadItemsLocal(s, key, AfterField(text), count.value);
      LoadItemsConsistentIff(s, key, AfterField(text), count.value);
      if r.1 {
        DeadlineKeepsStores(r.0, key, deadline);
      } else {
        ConsistentWithout(s, r.0, key);
      }
    }
  }

  lemma LoadStringConsistent(s: State, key: string, deadline: int, text: string)
    requires Consistent(s)
    ensures Consistent(LoadString(s, key, deadline, text).0)
  {
    hide Consistent, Decode, Set, WithDeadline;
    var value := Decode(text);
    if value.Some? {
      SetConsistent(s, key, value.value);
      SetFrame(s, key, value.value);
      DeadlineKeepsStores(Set(s, key, value.value), key, deadline);
    }
  }

  /** The loader checks no types: a line of a file, whatever it holds, leaves a key in both stores exactly
      when it reads as a list record, and the key it names is a string. */
  lemma LoadConsistentIff(s: State, now: nat, v2: bool, line: string)
    requires Consistent(s)
    ensures var h := HeadOf(v2, line);
            Consistent(LoadRecord(s, now, v2, line).0) <==>
            !(Loads(h, now) && h.value.kind == 'L' && h.value.key in s.strings)
  {
    hide Consistent, HeadOf, LoadRecord, LoadString, LoadList, Loads;
    var h := HeadOf(v2, line);
    SkippedRecord(s, now, v2, line);
    LoadRecordByHead(s, now, v2, line);
    if h.Some? {
      LoadStringConsistent(s, h.value.key, h.value.deadline, h.value.rest);
      LoadListConsistentIff(s, h.value.key, h.value.deadline, h.value.rest);
    }
  }

  /** A line of a file runs into undefined behaviour exactly when it reads as a string record of a new string, and the
      lists that no node names fill the capacity. */
  lemma LoadDefinedIff(s: State, now: nat, v2: bool, line: string)
    requires PointerInv(s)
    ensures var h := HeadOf(v2, line);
            LoadRecord(s, now, v2, line).0.undefined <==>
            s.undefined || (Loads(h, now) && h.value.kind == 'S' && UnsafeSet(s, h.value.key))
  {
    hide PointerInv, HeadOf, LoadRecord, LoadString, LoadList, Decode, Untracked;
    var h := HeadOf(v2, line);
    LoadRecordByHead(s, now, v2, line);
    if h.Some? {
      LoadListDefined(s, h.value.key, h.value.deadline, h.value.rest);
      LoadStringDefinedIff(s, h.value.key, h.value.deadline, h.value.rest);
    }
  }

  lemma LoadListDefined(s: State, key: string, deadline: int, text: string)
    ensures LoadList(s, key, deadline, text).0.undefined == s.undefined
  {
    hide Stoi, LoadItems, Field, AfterField;
    var count := Stoi(Field(text));
    if count.Some? && count.value > 0 {
      LoadItemsRecency(s, key, AfterField(text), count.value);
    }
  }

  lemma LoadStringDefinedIff(s: State, key: string, deadline: int, text: string)
    requires PointerInv(s)
    ensures LoadString(s, key, deadline, text).0.undefined <==>
            s.undefined || (Decode(text).Some? && UnsafeSet(s, key))
  {
    hide PointerInv, Decode, Set, Untracked;
    if Decode(text).Some? {
      SetDefinedIff(s, key, Decode(text).value);
    }
  }

  lemma LoadListKeepsPointers(s: State, key: string, deadline: int, text: string)
    requires PointerInv(s)
    ensures PointerInv(LoadList(s, key, deadline, text).0)
  {
    hide PointerInv, Stoi, LoadItems, Field, AfterField;
    var count := Stoi(Field(text));
    if count.Some? && count.value > 0 {
      LoadItemsRecency(s, key, AfterField(text), count.value);
    }
    SameRecencyKeeps(s, LoadList(s, key, deadline, text).0);
  }

  /** No line of a file disturbs the pointers. */
  lemma LoadKeepsPointers(s: State, now: nat, v2: bool, line: string)
    requires PointerInv(s)
    ensures PointerInv(LoadRecord(s, now, v2, line).0)
  {
    hide PointerInv, Decode, Stoll, LoadList, Set, WithDeadline, Find, AfterField;
    if line != "" && (v2 ==> |line| >= 3 && line[1] == ' ') {
      var record := if v2 then line[2..] else line;
      var s1 := Find(record, ' ');
      if s1 < |record| {
        var tail := record[s1 + 1..];
        var key, deadline := Decode(record[..s1]), Stoll(Field(tail));
        if key.Some? && deadline.Some? {
          var value := Decode(AfterField(tail));
          if value.Some? {
            SetKeepsPointers(s, key.value, value.value);
            DeadlineKeepsPointers(Set(s, key.value, value.value), key.value, deadline.value);
          }
          LoadListKeepsPointers(s, key.value, deadline.value, AfterField(tail));
        }
      }
    }
  }

  lemma {:induction false} LoadLinesKeepPointers(s: State, now: nat, v2: bool, f: string, keys: nat)
    requires PointerInv(s)
    ensures PointerInv(LoadLines(s, now, v2, f, keys).db)
    decreases |f|
  {
    hide PointerInv, LoadRecord, Line;
    if f != "" && Line(f) != FOOTER {
      var r := LoadRecord(s, now, v2, Line(f));
      LoadKeepsPointers(s, now, v2, Line(f));
      LoadLinesKeepPointers(r.0, now, v2, AfterLine(f), keys + if r.1 then 1 else 0);
    }
  }

  // ----- the round trip -----

  /** The entries that are still live at `now`, in order. */
  function StillLive(es: seq<SnapshotEntry>, now: nat): seq<SnapshotEntry> {
    if es == [] then []
    else
      var e := es[|es| - 1];
      StillLive(es[..|es| - 1], now) + if Dead(EntryOf(e), now) then [] else [e]
  }

  lemma LoadNextLine(s: State, now: nat, line: string, rest: string, keys: nat)
    requires OneLine(line) && line != FOOTER
    ensures var r := LoadRecord(s, now, true, line);
            LoadLines(s, now, true, line + ("\n" + rest), keys) ==
            LoadLines(r.0, now, true, rest, keys + if r.1 then 1 else 0)
  {
    hide LoadRecord, Line, AfterLine;
    LineOf(line, rest);
  }

  lemma {:induction false} LoadLinesPrinted(s: State, now: nat, es: seq<SnapshotEntry>, tail: string)
    requires forall i :: 0 <= i < |es| ==> Printable(es[i])
    ensures LoadLines(s, now, true, Records(es) + tail, 0) ==
            LoadLines(RestoreAll(s, StillLive(es, now)), now, true, tail, |StillLive(es, now)|)
  {
    hide LoadRecord, LoadLines, RestoreEntry, Record, Dead, OneLine, Printable;
    if es == [] {
      assert "" + tail == tail;
    } else {
      var front, e := es[..|es| - 1], es[|es| - 1];
      var rest := Record(e) + ("\n" + tail);
      LoadLinesPrinted(s, now, front, rest);
      assert Records(es) + tail == Records(front) + rest;
      RecordOneLine(e);
      var kept := StillLive(front, now);
      LoadNextLine(RestoreAll(s, kept), now, Record(e), tail, |kept|);
      LoadPrinted(RestoreAll(s, kept), now, e);
      if Dead(EntryOf(e), now) {
        assert kept + [] == kept;
      } else {
        assert (kept + [e])[..|kept|] == kept;
      }
    }
  }

  lemma LiveAdded(m: Timed, now: nat, key: string, e: Entry)
    requires key !in m
    ensures Live(m[key := e], now) == if Dead(e, now) then Live(m, now) else Live(m, now)[key := e]
  {
  }

  lemma LiveEmpty(now: nat)
    ensures Live(map[], now) == map[]
  {
  }

  lemma {:induction false} StillLiveKeys(es: seq<SnapshotEntry>, now: nat)
    requires DistinctKeys(es)
    ensures EntryKeys(StillLive(es, now)) <= EntryKeys(es) && DistinctKeys(StillLive(es, now))
  {
    hide Dead, EntryOf, EntryKeys;
    if es != [] {
      var front, e := es[..|es| - 1], es[|es| - 1];
      StillLiveKeys(front, now);
      assert es == front + [e];
      EntryKeysAppend(front, e);
      EntryKeysAppend(StillLive(front, now), e);
      LastIsNew(es);
      assert StillLive(front, now) + [] == StillLive(front, now);
    } else {
      assert StillLive(es, now) == es;
    }
  }

  lemma {:induction false} StillLiveMap(es: seq<SnapshotEntry>, now: nat)
    requires DistinctKeys(es)
    ensures EntriesMap(StillLive(es, now)) == Live(EntriesMap(es), now)
  {
    hide Dead, EntryOf, Live, EntryKeys;
    if es == [] {
      LiveEmpty(now);
    } else {
      var front, e := es[..|es| - 1], es[|es| - 1];
      var kept := StillLive(front, now);
      StillLiveMap(front, now);
      EntriesMapAt(front);
      LastIsNew(es);
      LiveAdded(EntriesMap(front), now, e.key, EntryOf(e));
      assert kept + [] == kept;
      assert (kept + [e])[..|kept|] == kept;
    }
  }

  lemma LastIsNew(es: seq<SnapshotEntry>)
    requires DistinctKeys(es) && es != []
    ensures es[|es| - 1].key !in EntryKeys(es[..|es| - 1])
  {
  }

  lemma {:induction false} StillLiveRestorable(es: seq<SnapshotEntry>, now: nat, capacity: nat)
    requires Restorable(es, capacity)
    ensures Restorable(StillLive(es, now), capacity) && |StillLive(es, now)| <= |es|
  {
    StillLiveKeys(es, now);
    if es != [] {
      StillLiveRestorable(es[..|es| - 1], now, capacity);
    }
  }

  lemma LoadFooter(s: State, now: nat, keys: nat)
    ensures LoadLines(s, now, true, FOOTER + "\n", keys) == Loaded(s, keys, true)
  {
    hide LoadRecord, Line;
    LineOf(FOOTER, "");
    assert FOOTER + "\n" == FOOTER + ("\n" + "");
  }

  lemma LoadHeader(s: State, now: nat, body: string)
    ensures var r := LoadLines(s, now, true, body, 0);
            Load(s, now, Some(HEADER + "\n" + body)) ==
            (r.db, LoadResult(true, r.keys, if r.foundFooter then NoError else Truncated))
  {
    hide Line, AfterLine, LoadLines;
    LineOf(HEADER, body);
    assert HEADER + "\n" + body == HEADER + ("\n" + body);
  }

  lemma LoadSaved(s: State, now: nat, es: seq<SnapshotEntry>)
    requires forall i :: 0 <= i < |es| ==> Printable(es[i])
    ensures var kept := StillLive(es, now);
            Load(s, now, Some(FileText(es))) == (RestoreAll(s, kept), LoadResult(true, |kept|, NoError))
  {
    hide Load, LoadLines, Records, StillLive, RestoreAll;
    LoadHeader(s, now, Records(es) + (FOOTER + "\n"));
    LoadLinesPrinted(s, now, es, FOOTER + "\n");
    LoadFooter(RestoreAll(s, StillLive(es, now)), now, |StillLive(es, now)|);
  }

  /** What a saved database must satisfy beyond the invariants of every run: list lengths are ints. */
  predicate Savable(s: State) {
    && StoreInv(s)
    && forall k :: k in s.lists ==> |s.lists[k]| <= INT_MAX
  }

  lemma SnapshotPrintable(es: seq<SnapshotEntry>, s: State, now: nat)
    requires Savable(s) && IsSnapshot(es, s, now)
    ensures forall i :: 0 <= i < |es| ==> Printable(es[i])
  {
    hide LiveStrings, LiveLists, EntryKeys, DistinctKeys;
    var n :| SnapshotSplitAt(es, n, s, now);
    forall i | 0 <= i < |es|
      ensures Printable(es[i])
    {
      if i < n {
        assert es[..n][i] == es[i];
      } else {
        assert es[n..][i - n] == es[i];
      }
    }
  }

  /** A file loaded into an empty database: the entries that are still live, exactly. */
  lemma LoadIntoEmpty(capacity: nat, now: nat, es: seq<SnapshotEntry>)
    requires Restorable(es, capacity) && forall i :: 0 <= i < |es| ==> Printable(es[i])
    ensures var r := Load(Empty(capacity), now, Some(FileText(es)));
            && r.1.success && r.1.error == NoError
            && Contents(r.0) == Live(EntriesMap(es), now)
            && Consistent(r.0) && PointerInv(r.0) && r.0.capacity == capacity && !r.0.undefined
  {
    var empty := Empty(capacity);
    assert Contents(empty) == map[] && Consistent(empty);
    hide Contents, Consistent, Live, Load, EntriesMap, RestoreAll, StillLive, Printable, DistinctKeys, PointerInv;
    LoadSaved(empty, now, es);
    StillLiveMap(es, now);
    StillLiveRestorable(es, now, capacity);
    RestoreAllContents(empty, StillLive(es, now));
    LoadedPointers(capacity, now, FileText(es));
  }

  lemma LoadedPointers(capacity: nat, now: nat, file: string)
    ensures PointerInv(Load(Empty(capacity), now, Some(file)).0)
  {
    assert PointerInv(Empty(capacity));
    hide PointerInv, LoadLines, Line, AfterLine;
    LoadLinesKeepPointers(Empty(capacity), now, Line(file) == HEADER, AfterLine(file), 0);
  }

  /** Saving a database and loading the file into an empty one, at any later time, gives back the same
      live keys with the same values in the same order and the same deadlines, then and ever after. The
      loaded database meets the invariants that the results about runs start from. */
  lemma SaveLoadRoundTrip(s: State, es: seq<SnapshotEntry>, saved: nat, now: nat, later: nat)
    requires Savable(s)
    requires IsSnapshot(es, s, saved) && saved <= now <= later
    ensures var r := Load(Empty(s.capacity), now, Some(FileText(es)));
            && r.1.success && r.1.error == NoError
            && Contents(r.0) == Live(Contents(s), now)
            && Live(Contents(r.0), later) == Live(Contents(s), later)
            && StoreInv(r.0) && PointerInv(r.0) && !r.0.undefined
  {
    hide Contents, Consistent, Live, Load, EntriesMap, Restorable, FileText, Printable, PointerInv, IsSnapshot, DistinctKeys;
    SnapshotPrintable(es, s, saved);
    SnapshotRestorable(es, s, saved);
    SnapshotIsLive(es, s, saved);
    LoadIntoEmpty(s.capacity, now, es);
    LiveLater(Contents(s), saved, now);
    LiveLater(Contents(s), now, later);
    LiveCopyKeepsStores(s, Load(Empty(s.capacity), now, Some(FileText(es))).0, now);
  }

  // ----- truncation -----

  /** Whether some line of `f` is the footer: what `load` finds out whatever it does with the records. */
  predicate HasFooter(f: string)
    decreases |f|
  {
    f != "" && (Line(f) == FOOTER || HasFooter(AfterLine(f)))
  }

  lemma {:induction false} LoadFindsFooter(s: State, now: nat, v2: bool, f: string, keys: nat)
    ensures LoadLines(s, now, v2, f, keys).foundFooter <==> HasFooter(f)
    decreases |f|
  {
    hide LoadRecord, Line;
    if f != "" && Line(f) != FOOTER {
      var r := LoadRecord(s, now, v2, Line(f));
      LoadFindsFooter(r.0, now, v2, AfterLine(f), keys + if r.1 then 1 else 0);
    }
  }

  lemma {:induction false} RecordsHideNoFooter(es: seq<SnapshotEntry>, tail: string)
    ensures HasFooter(Records(es) + tail) <==> HasFooter(tail)
  {
    hide Record, Line, AfterLine;
    if es == [] {
      assert "" + tail == tail;
    } else {
      var front, e := es[..|es| - 1], es[|es| - 1];
      var rest := Record(e) + ("\n" + tail);
      RecordsHideNoFooter(front, rest);
      assert Records(es) + tail == Records(front) + rest;
      RecordOneLine(e);
      LineOf(Record(e), tail);
    }
  }

  /** A record cut short, even to nothing, is not the footer. */
  lemma CutRecord(e: SnapshotEntry, j: nat)
    requires j <= |Record(e)| + 1
    ensures !HasFooter((Record(e) + "\n")[..j])
  {
    var t := Record(e) + "\n";
    RecordOneLine(e);
    if j == 0 {
    } else if j <= |Record(e)| {
      var cut := t[..j];
      assert cut == Record(e)[..j];
      assert cut[0] == Record(e)[0];
      assert OneLine(cut);
      LineOf(cut, "");
      assert cut != FOOTER;
    } else {
      assert t[..j] == Record(e) + ("\n" + "");
      LineOf(Record(e), "");
    }
  }

  lemma {:induction false} CutRecords(es: seq<SnapshotEntry>, k: nat)
    requires k <= |Records(es)|
    ensures !HasFooter(Records(es)[..k])
  {
    hide Record, HasFooter;
    if es == [] {
      assert !HasFooter("") by { CutNothing(); }
      assert Records(es)[..k] == "";
    } else {
      var front, e := es[..|es| - 1], es[|es| - 1];
      var n := |Records(front)|;
      if k <= n {
        CutRecords(front, k);
        assert Records(es)[..k] == Records(front)[..k];
      } else {
        var piece := (Record(e) + "\n")[..k - n];
        CutRecord(e, k - n);
        RecordsHideNoFooter(front, piece);
        assert Records(es)[..k] == Records(front) + piece;
      }
    }
  }

  lemma CutNothing()
    ensures !HasFooter("")
  {
  }

  lemma CutFooter(j: nat)
    requires j <= |FOOTER| + 1
    ensures HasFooter((FOOTER + "\n")[..j]) <==> j >= |FOOTER|
  {
    var t := FOOTER + "\n";
    var cut := t[..j];
    if j <= |FOOTER| {
      assert cut == FOOTER[..j];
      assert OneLine(cut);
      LineOf(cut, "");
      CutNothing();
    } else {
      assert cut == FOOTER + ("\n" + "");
      LineOf(FOOTER, "");
    }
  }

  lemma CutConcat(a: string, b: string, j: nat)
    requires j <= |a| + |b|
    ensures (a + b)[..j] == if j <= |a| then a[..j] else a + b[..j - |a|]
  {
  }

  lemma CutBody(es: seq<SnapshotEntry>, j: nat)
    requires j <= |Records(es)| + |FOOTER| + 1
    ensures HasFooter((Records(es) + (FOOTER + "\n"))[..j]) <==> j >= |Records(es)| + |FOOTER|
  {
    hide HasFooter, Records;
    var n := |Records(es)|;
    CutConcat(Records(es), FOOTER + "\n", j);
    if j <= n {
      CutRecords(es, j);
    } else {
      CutFooter(j - n);
      RecordsHideNoFooter(es, (FOOTER + "\n")[..j - n]);
    }
  }

  lemma CutHeader(k: nat, s: State, now: nat)
    requires k <= |HEADER|
    ensures Load(s, now, Some(HEADER[..k])).1.error != NoError
  {
    var cut := HEADER[..k];
    assert OneLine(cut);
    LineOf(cut, "");
    assert k == |HEADER| ==> cut == HEADER;
  }

  /** A file cut anywhere before the end of its footer, loaded into any database at any time, is reported
      as unreadable or truncated. Only a file that is whole but for the last line feed passes. */
  lemma TruncationDetected(es: seq<SnapshotEntry>, k: nat, s: State, now: nat)
    requires k <= |FileText(es)|
    ensures var r := Load(s, now, Some(FileText(es)[..k])).1;
            r.success && r.error == NoError <==> k >= |FileText(es)| - 1
  {
    hide Load, HasFooter, Records;
    var cut, n := FileText(es)[..k], |HEADER|;
    if k <= n {
      CutHeader(k, s, now);
      assert cut == HEADER[..k];
    } else {
      var body := (Records(es) + (FOOTER + "\n"))[..k - n - 1];
      assert cut == HEADER + "\n" + body;
      LoadHeader(s, now, body);
      LoadFindsFooter(s, now, true, body, 0);
      CutBody(es, k - n - 1);
    }
  }

  // ----- the program's loops -----

  /** `save`: takes the snapshot and prints it. */
  method Save(db: Database, now: nat) returns (file: string, es: seq<SnapshotEntry>)
    ensures IsSnapshot(es, db.Abstraction(), now) && file == FileText(es)
  {
    es := db.Snapshot(now);
    var body := "";
    for i := 0 to |es|
      invariant body == Records(es[..i])
    {
      var e := es[i];
      var key := PercentEncode(e.key);
      var line := "";
      match e.value {
        case Str(text) =>
          var value := PercentEncode(text);
          line := "S " + (key + " " + (Show(e.deadline) + " " + value));
        case Lst(items) =>
          var list := PrintItems(items);
          line := "L " + (key + " " + (Show(e.deadline) + " " + (Show(|items|) + list)));
      }
      assert es[..i + 1][..i] == es[..i];
      body := body + (line + "\n");
    }
    assert es[..|es|] == es;
    file := HEADER + "\n" + (body + (FOOTER + "\n"));
  }

  method PrintItems(items: seq<string>) returns (out: string)
    ensures out == PrintedItems(items)
  {
    out := "";
    for i := 0 to |items|
      invariant out == PrintedItems(items[..i])
    {
      var item := PercentEncode(items[i]);
      assert items[..i + 1][..i] == items[..i];
      out := out + (" " + item);
    }
    assert items[..|items|] == items;
  }

  method PushElements(db: Database, key: string, text: string, count: nat) returns (ok: bool)
    modifies db
    ensures (db.Abstraction(), ok) == LoadItems(old(db.Abstraction()), key, text, count)
  {
    hide Push, Decode;
    var remaining := text;
    for i := 0 to count
      invariant LoadItems(db.Abstraction(), key, remaining, count - i) == LoadItems(old(db.Abstraction()), key, text, count)
    {
      var sep := Find(remaining, ' ');
      var item := PercentDecode(remaining[..sep]);
      if item == None {
        return false;
      }
      remaining := if sep < |remaining| then remaining[sep + 1..] else "";
      var _ := db.PushItem(key, item.value, false);
    }
    return true;
  }

  method LoadRecordInto(db: Database, now: nat, v2: bool, line: string) returns (loaded: bool)
    modifies db
    ensures (db.Abstraction(), loaded) == LoadRecord(old(db.Abstraction()), now, v2, line)
  {
    hide Decode, Stoll, Stoi, LoadItems, Set, ExpireAt, Find;
    if line == "" {
      return false;
    }
    var kind, record := 'S', line;
    if v2 {
      if |line| < 3 || line[1] != ' ' {
        return false;
      }
      kind, record := line[0], line[2..];
    }
    loaded := LoadFieldsInto(db, now, kind, record);
  }

  lemma SecondField(record: string, start: nat)
    requires start <= |record|
    ensures var s2, tail := FindFrom(record, ' ', start), record[start..];
            && Find(tail, ' ') == s2 - start
            && (s2 < |record| ==> Field(tail) == record[start..s2] && AfterField(tail) == record[s2 + 1..])
  {
    FindShift(record, ' ', start);
  }

  method LoadFieldsInto(db: Database, now: nat, kind: char, record: string) returns (loaded: bool)
    modifies db
    ensures (db.Abstraction(), loaded) == LoadFields(old(db.Abstraction()), now, kind, record)
  {
    hide Decode, Stoll, LoadString, LoadList, Find, FindFrom, Field, AfterField;
    var s1 := Find(record, ' ');
    if s1 == |record| {
      return false;
    }
    var s2 := FindFrom(record, ' ', s1 + 1);
    SecondField(record, s1 + 1);
    if s2 == |record| {
      return false;
    }
    var key := PercentDecode(record[..s1]);
    if key == None {
      return false;
    }
    var deadline := Stoll(record[s1 + 1..s2]);
    if deadline == None {
      return false;
    }
    if deadline.value != -1 && now >= deadline.value {
      return false;
    }
    if kind == 'S' {
      loaded := LoadStringInto(db, key.value, deadline.value, record[s2 + 1..]);
    } else if kind == 'L' {
      loaded := LoadListInto(db, key.value, deadline.value, record[s2 + 1..]);
    } else {
      loaded := false;
    }
  }

  method LoadStringInto(db: Database, key: string, deadline: int, text: string) returns (loaded: bool)
    modifies db
    ensures (db.Abstraction(), loaded) == LoadString(old(db.Abstraction()), key, deadline, text)
  {
    hide Decode, Set, ExpireAt;
    var value := PercentDecode(text);
    if value == None {
      return false;
    }
    db.SetString(key, value.value);
    if deadline != -1 {
      db.SetDeadline(key, deadline);
    }
    return true;
  }

  method LoadListInto(db: Database, key: string, deadline: int, text: string) returns (loaded: bool)
    modifies db
    ensures (db.Abstraction(), loaded) == LoadList(old(db.Abstraction()), key, deadline, text)
  {
    hide Stoi, LoadItems, ExpireAt;
    var sep := Find(text, ' ');
    var count := Stoi(text[..sep]);
    if count == None || count.value <= 0 {
      return false;
    }
    var elements := if sep < |text| then text[sep + 1..] else "";
    var ok := PushElements(db, key, elements, count.value);
    if !ok {
      var _ := db.Delete(key);
      return false;
    }
    if deadline != -1 {
      db.SetDeadline(key, deadline);
    }
    return true;
  }

  /** `load`: reads the header, then record after record until the footer or the end of the file. */
  method LoadInto(db: Database, now: nat, file: Option<string>) returns (r: LoadResult)
    modifies db
    ensures (db.Abstraction(), r) == Load(old(db.Abstraction()), now, file)
  {
    hide LoadRecord, Line;
    if file == None {
      return LoadResult(true, 0, NoError);
    }
    if file.value == "" {
      return LoadResult(false, 0, EmptyFile);
    }
    var v2, v1 := Line(file.value) == HEADER, Line(file.value) == HEADER_V1;
    if !v2 && !v1 {
      return LoadResult(false, 0, UnknownFormat);
    }
    var remaining, keys, footer := AfterLine(file.value), 0, false;
    ghost var expected := LoadLines(db.Abstraction(), now, v2, remaining, 0);
    while remaining != ""
      invariant !footer && LoadLines(db.Abstraction(), now, v2, remaining, keys) == expected
      decreases |remaining|
    {
      var line := Line(remaining);
      if line == FOOTER {
        footer := true;
        break;
      }
      var loaded := LoadRecordInto(db, now, v2, line);
      if loaded {
        keys := keys + 1;
      }
      remaining := AfterLine(remaining);
    }
    return LoadResult(true, keys, if footer then NoError else Truncated);
  }
}
