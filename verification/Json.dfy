/**
 JSON values, events, and the lookup of an event field by path.

 The fields of an object are listed in the order in which the runtime happens to range over
 them. No theorem restricts that order.
 */
module Events {
  import opened Wrappers

  datatype Json =
    | Null
    | Bool(b: bool)
    | Num(n: real)
    | Str(s: string)
    | List(items: seq<Json>)
    | Obj(fields: seq<Field>)

  datatype Field = Field(key: string, val: Json)

  /** Go maps accept these values as keys and panic on lists and objects. */
  predicate Hashable(j: Json)
  {
    !j.List? && !j.Obj?
  }

  /** What a lookup yields: JSON data, or one of the other dynamic types an event field can have. */
  datatype Val = Data(j: Json) | Absent | NoSubject | Timestamp(t: int) | WholeEvent

  datatype Got = Value(v: Val) | DataError | Panic

  /** `data` is None if the data of the event is not valid JSON. */
  datatype Event = Event(
    id: nat,
    source: string,
    subject: Option<string>,
    kind: string,
    time: int,
    data: Option<Json>,
    datacontenttype: string)

  function Decimal(n: nat): (s: string)
    ensures |s| > 0
  {
    var digit := ['0' + (n % 10) as char];
    if n < 10 then digit else Decimal(n / 10) + digit
  }

  function DecimalValue(s: string): Option<nat>
  {
    if s == [] then Some(0)
    else
      var high := DecimalValue(s[..|s| - 1]);
      var c := s[|s| - 1];
      if high.Some? && '0' <= c <= '9' then Some(10 * high.value + (c - '0') as nat) else None
  }

  /** strconv.ParseInt in base 10 with 64 bits; None is an error. */
  function ParseInt(s: string): Option<int>
  {
    var negative := s != [] && s[0] == '-';
    var digits := if negative || (s != [] && s[0] == '+') then s[1..] else s;
    var magnitude := if digits == [] then None else DecimalValue(digits);
    if magnitude.None? then None
    else if negative && magnitude.value <= 0x8000_0000_0000_0000 then Some(-magnitude.value)
    else if !negative && magnitude.value < 0x8000_0000_0000_0000 then Some(magnitude.value)
    else None
  }

  function Find(fields: seq<Field>, key: string): Option<Json>
  {
    if fields == [] then None
    else if fields[0].key == key then Some(fields[0].val)
    else Find(fields[1..], key)
  }

  /** One step of a path. A negative index gets past the bounds check of the code. */
  function Step(j: Json, key: string): Got
  {
    match j
    case Obj(fields) =>
      var found := Find(fields, key);
      if found.Some? then Value(Data(found.value)) else Value(Absent)
    case List(items) =>
      var index := ParseInt(key);
      if index.None? || index.value >= |items| then Value(Absent)
      else if index.value < 0 then Panic
      else Value(Data(items[index.value]))
    case _ => Value(Absent)
  }

  function Walk(j: Json, path: seq<string>): Got
    decreases |path|
  {
    if path == [] then Value(Data(j))
    else
      var got := Step(j, path[0]);
      if got.Value? && got.v.Data? then Walk(got.v.j, path[1..]) else got
  }

  function Top(e: Event, key: string): Got
  {
    match key
    case "id" => Value(Data(Str(Decimal(e.id))))
    case "source" => Value(Data(Str(e.source)))
    case "subject" => if e.subject.Some? then Value(Data(Str(e.subject.value))) else Value(NoSubject)
    case "type" => Value(Data(Str(e.kind)))
    case "time" => Value(Timestamp(e.time))
    case "data" => if e.data.Some? then Value(Data(e.data.value)) else DataError
    case "datacontenttype" => Value(Data(Str(e.datacontenttype)))
    case _ => Value(Absent)
  }

  /** The meaning of a path: its first key selects an event field, the others lead into the data. */
  function FieldAt(e: Event, path: seq<string>): Got
  {
    if path == [] then Value(WholeEvent)
    else if |path| == 1 then Top(e, path[0])
    else if path[0] != "data" then Value(Absent)
    else if e.data.None? then DataError
    else Walk(e.data.value, path[1..])
  }

  // ---------- what paths select ----------

  /** A number is written with its digits, the last one for the remainder by ten, and is read back from
      them. */
  lemma {:induction false} DecimalReadsBack(n: nat)
    ensures DecimalValue(Decimal(n)) == Some(n)
    ensures n < 10 ==> Decimal(n) == ["0123456789"[n]]
    ensures n >= 10 ==> Decimal(n) == Decimal(n / 10) + ["0123456789"[n % 10]]
    ensures Decimal(n)[0] != '-' && Decimal(n)[0] != '+'
  {
    var s := Decimal(n);
    assert "0123456789"[n % 10] == '0' + (n % 10) as char;
    if n < 10 {
      assert s[..0] == [] && DecimalValue([]) == Some(0);
    } else {
      DecimalReadsBack(n / 10);
      assert s[..|s| - 1] == Decimal(n / 10);
    }
  }

  lemma ParsingDigits(s: string, i: nat)
    requires s != [] && s[0] != '-' && s[0] != '+' && DecimalValue(s) == Some(i)
    ensures i < 0x8000_0000_0000_0000 ==> ParseInt(s) == Some(i)
    ensures 0x8000_0000_0000_0000 <= i ==> ParseInt(s) == None
    ensures 0 < i <= 0x8000_0000_0000_0000 ==> ParseInt("-" + s).Some? && ParseInt("-" + s).value + i == 0
    ensures 0x8000_0000_0000_0000 < i ==> ParseInt("-" + s) == None
  {
    hide DecimalValue;
    var minus := "-" + s;
    assert minus[0] == '-' && minus[1..] == s;
  }

  /** In a list the decimal text of an index selects its item, and that of a negative number panics. */
  lemma ListStep(items: seq<Json>, i: nat)
    ensures
      var s := Decimal(i);
      && (i < |items| && i < 0x8000_0000_0000_0000 ==> Step(List(items), s) == Value(Data(items[i])))
      && (|items| <= i ==> Step(List(items), s) == Value(Absent))
      && (0 < i <= 0x8000_0000_0000_0000 ==> Step(List(items), "-" + s) == Panic)
      && (0x8000_0000_0000_0000 < i ==> Step(List(items), "-" + s) == Value(Absent))
  {
    hide Decimal, ParseInt;
    DecimalReadsBack(i);
    ParsingDigits(Decimal(i), i);
  }

  /** In an object a key selects its value, the first if it occurs twice; another key is absent. */
  lemma {:induction false} ObjectStep(fields: seq<Field>, key: string)
    ensures
      forall i :: 0 <= i < |fields| && fields[i].key == key && (forall j :: 0 <= j < i ==> fields[j].key != key) ==>
        Step(Obj(fields), key) == Value(Data(fields[i].val))
    ensures (forall i :: 0 <= i < |fields| ==> fields[i].key != key) ==> Step(Obj(fields), key) == Value(Absent)
    decreases |fields|
  {
    if fields != [] && fields[0].key != key {
      ObjectStep(fields[1..], key);
      forall i | 1 <= i < |fields|
        ensures fields[i] == fields[1..][i - 1]
      {
      }
    }
  }

  /** Beyond the data, every further key is a step from where the keys before it have led. */
  lemma WalkOn(e: Event, path: seq<string>, key: string)
    requires path != [] && path[0] == "data" && e.data.Some?
    ensures
      var got := FieldAt(e, path);
      FieldAt(e, path + [key]) == if got.Value? && got.v.Data? then Step(got.v.j, key) else got
  {
    assert (path + [key])[1..] == path[1..] + [key];
    WalkSnoc(e.data.value, path[1..], key);
  }

  lemma {:induction false} WalkSnoc(j: Json, path: seq<string>, key: string)
    ensures
      var got := Walk(j, path);
      Walk(j, path + [key]) == if got.Value? && got.v.Data? then Step(got.v.j, key) else got
    decreases |path|
  {
    if path == [] {
      var got := Step(j, key);
      assert [key][1..] == [];
      assert got.Value? && got.v.Data? ==> Walk(got.v.j, []) == got;
    } else {
      assert (path + [key])[1..] == path[1..] + [key];
      var got := Step(j, path[0]);
      if got.Value? && got.v.Data? {
        WalkSnoc(got.v.j, path[1..], key);
      }
    }
  }

  /** One key selects a field of the event, more keys lead into its data. */
  method GetFieldByPath(e: Event, path: seq<string>) returns (r: Got)
    ensures r == FieldAt(e, path)
    ensures path == [] ==> r == Value(WholeEvent)
    ensures path == ["id"] ==> r == Value(Data(Str(Decimal(e.id))))
    ensures path == ["source"] ==> r == Value(Data(Str(e.source)))
    ensures path == ["subject"] ==> r == Value(if e.subject.Some? then Data(Str(e.subject.value)) else NoSubject)
    ensures path == ["type"] ==> r == Value(Data(Str(e.kind)))
    ensures path == ["time"] ==> r == Value(Timestamp(e.time))
    ensures path == ["data"] ==> r == if e.data.Some? then Value(Data(e.data.value)) else DataError
    ensures path == ["datacontenttype"] ==> r == Value(Data(Str(e.datacontenttype)))
    ensures |path| == 1 && path[0] !in ["id", "source", "subject", "type", "time", "data", "datacontenttype"] ==>
      r == Value(Absent)
    ensures |path| > 1 && path[0] != "data" ==> r == Value(Absent)
    ensures |path| > 1 && path[0] == "data" && e.data == None ==> r == DataError
  {
    if |path| == 0 {
      return Value(WholeEvent);
    }
    if |path| == 1 {
      return Top(e, path[0]);
    }
    if path[0] != "data" {
      return Value(Absent);
    }
    if e.data.None? {
      return DataError;
    }
    var data := e.data.value;
    for i := 1 to |path|
      invariant Walk(data, path[i..]) == Walk(e.data.value, path[1..])
    {
      assert path[i..][1..] == path[i + 1..];
      var got := Step(data, path[i]);
      if !(got.Value? && got.v.Data?) {
        return got;
      }
      data := got.v.j;
    }
    r := Value(Data(data));
  }
}
