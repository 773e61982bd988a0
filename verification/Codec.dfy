/** How encoding/json reads and writes the parts of a struct, without the text: a null leaves a
plain field as it is and makes a pointer, a slice or a map nil; an empty slice and a nil pointer
are left out where the struct says omitempty. */
module Codec {
  import opened Wrappers
  import opened Values
  import opened Decimal

  type Members = map<string, Value>

  // ---------- Reading ----------

  function ReadStr(was: string, v: Value): Option<string> {
    match v
    case Null => Some(was)
    case Str(s) => Some(s)
    case _ => None
  }

  function ReadU16(was: u16, v: Value): Option<u16> {
    match v
    case Null => Some(was)
    case Num(raw) => (var n :- ParseUint(raw, TWO_TO_THE_16); Some(n))
    case _ => None
  }

  function ReadU32(was: u32, v: Value): Option<u32> {
    match v
    case Null => Some(was)
    case Num(raw) => (var n :- ParseUint(raw, TWO_TO_THE_32); Some(n))
    case _ => None
  }

  function ReadI64(was: i64, v: Value): Option<i64> {
    match v
    case Null => Some(was)
    case Num(raw) => (var n :- ParseInt(raw, TWO_TO_THE_63); Some(n))
    case _ => None
  }

  /** A member that a struct holds by value: was when the object does not have it. */
  function Field<T>(o: Members, m: string, was: T, read: (T, Value) -> Option<T>): Option<T> {
    if m in o then read(was, o[m]) else Some(was)
  }

  /** A member that a struct holds by pointer, nil before: read makes a new T for it. */
  function Pointer<T>(o: Members, m: string, zero: T, read: (T, Value) -> Option<T>): Option<Option<T>> {
    if m !in o || o[m].Null? then Some(None)
    else
      var x :- read(zero, o[m]);
      Some(Some(x))
  }

  /** A slice, nil before. */
  function Slice<T>(o: Members, m: string, zero: T, read: (T, Value) -> Option<T>): Option<Option<seq<T>>> {
    if m !in o || o[m].Null? then Some(None)
    else if !o[m].Arr? then None
    else
      var xs :- ReadItems(o[m].items, zero, read);
      Some(Some(xs))
  }

  function ReadItems<T>(items: seq<Value>, zero: T, read: (T, Value) -> Option<T>): Option<seq<T>> {
    if items == [] then Some([])
    else
      var x :- read(zero, items[0]);
      var rest :- ReadItems(items[1..], zero, read);
      Some([x] + rest)
  }

  lemma ReadOneItem<T>(item: Value, zero: T, read: (T, Value) -> Option<T>)
    requires read(zero, item).Some?
    ensures ReadItems([item], zero, read) == Some([read(zero, item).value])
  {
    var items, x := [item], read(zero, item).value;
    assert items[1..] == [] && [x] + [] == [x];
  }

  lemma {:induction false} ItemRead<T>(items: seq<Value>, zero: T, read: (T, Value) -> Option<T>, i: nat)
    requires ReadItems(items, zero, read).Some? && i < |items|
    ensures read(zero, items[i]).Some?
  {
    if i > 0 {
      ItemRead(items[1..], zero, read, i - 1);
    }
  }

  /** A slice is read as empty, but not nil, exactly from an empty list. */
  lemma EmptySlice<T(!new)>(o: Members, m: string, zero: T, read: (T, Value) -> Option<T>)
    requires Slice(o, m, zero, read).Some?
    ensures Slice(o, m, zero, read) == Some(Some([])) <==> m in o && o[m] == Arr([])
  {
  }

  /** A map, nil before. */
  function Table<T>(o: Members, m: string, zero: T, read: (T, Value) -> Option<T>): Option<Option<map<string, T>>> {
    if m !in o || o[m].Null? then Some(None)
    else if !o[m].Obj? then None
    else if exists k :: k in o[m].members && read(zero, o[m].members[k]).None? then None
    else Some(Some(map k | k in o[m].members :: read(zero, o[m].members[k]).value))
  }

  // ---------- Writing ----------

  function WriteStr(s: string): Option<Value> {
    Some(Str(s))
  }

  function WriteU16(n: u16): Option<Value> {
    Some(Num(FormatUint(n)))
  }

  function WriteI64(n: i64): Option<Value> {
    Some(Num(FormatInt(n)))
  }

  /** A member of an object to be written, or its omission. */
  datatype Part = Part(name: string, value: Option<Value>)

  /** The object made of the parts that are there. */
  function MembersOf(parts: seq<Part>): Members {
    if parts == [] then map[]
    else if parts[0].value.None? then MembersOf(parts[1..])
    else MembersOf(parts[1..])[parts[0].name := parts[0].value.value]
  }

  function Always(m: string, v: Value): Part {
    Part(m, Some(v))
  }

  function OmitNil<T>(m: string, p: Option<T>, write: T -> Option<Value>): (r: Option<Part>)
    ensures r.Some? ==> r.value.name == m
  {
    if p.None? then Some(Part(m, None))
    else
      var v :- write(p.value);
      Some(Part(m, Some(v)))
  }

  function OmitEmpty<T>(m: string, xs: Option<seq<T>>, write: T -> Option<Value>): (r: Option<Part>)
    ensures r.Some? ==> r.value.name == m
  {
    if xs.None? || xs.value == [] then Some(Part(m, None))
    else
      var items :- WriteItems(xs.value, write);
      Some(Part(m, Some(Arr(items))))
  }

  function WriteItems<T>(xs: seq<T>, write: T -> Option<Value>): Option<seq<Value>> {
    if xs == [] then Some([])
    else
      var v :- write(xs[0]);
      var rest :- WriteItems(xs[1..], write);
      Some([v] + rest)
  }

  function WriteTable<T>(t: map<string, T>, write: T -> Option<Value>): Option<Value> {
    if exists k :: k in t && write(t[k]).None? then None
    else Some(Obj(map k | k in t :: write(t[k]).value))
  }

  // ---------- Enums (enum.go) ----------

  /** parseEnum */
  function ParseEnum(text: string, valid: seq<string>): Option<string> {
    if text in valid then Some(text) else None
  }

  /** unmarshalEnum. A null leaves the text empty, which no enum allows. */
  function ReadEnum(v: Value, valid: seq<string>): Option<string> {
    var text :- ReadStr("", v);
    ParseEnum(text, valid)
  }

  /** The value that an enum's zero value stands for. */
  function OrDefault(v: string, def: string): string {
    if v == "" then def else v
  }

  /** marshalEnum */
  function WriteEnum(v: string, def: string, valid: seq<string>): Option<Value> {
    if OrDefault(v, def) in valid then Some(Str(OrDefault(v, def))) else None
  }

  /** What an enum is written as reads back as itself or its default, and what is read is written
  back as it stood. */
  lemma EnumReturns(v: string, def: string, valid: seq<string>, x: Value)
    requires def in valid && "" !in valid
    ensures WriteEnum(v, def, valid).Some? <==> v == "" || v in valid
    ensures WriteEnum(v, def, valid).Some? ==> ReadEnum(WriteEnum(v, def, valid).value, valid) == Some(OrDefault(v, def))
    ensures ReadEnum(x, valid).Some? <==> x.Str? && x.s in valid
    ensures ReadEnum(x, valid).Some? ==> WriteEnum(ReadEnum(x, valid).value, def, valid) == Some(x)
  {
  }

  // ---------- Reading what was written ----------

  /** Writing x succeeds exactly when ok, and reading that back gives y. */
  ghost predicate Returns<T>(x: T, ok: bool, y: T, zero: T, write: T -> Option<Value>, read: (T, Value) -> Option<T>) {
    && (write(x).Some? <==> ok)
    && (ok ==> !write(x).value.Null? && read(zero, write(x).value) == Some(y))
  }

  predicate Distinct(parts: seq<Part>) {
    forall i, j :: 0 <= i < j < |parts| ==> parts[i].name != parts[j].name
  }

  /** The object has what the part says. */
  predicate Shows(o: Members, p: Part) {
    if p.value.None? then p.name !in o else p.name in o && o[p.name] == p.value.value
  }

  lemma {:induction false} PartShows(parts: seq<Part>, i: nat)
    requires Distinct(parts) && i < |parts|
    ensures Shows(MembersOf(parts), parts[i])
  {
    if i > 0 {
      assert parts[1..][i - 1] == parts[i];
      PartShows(parts[1..], i - 1);
    } else {
      NoSuchPart(parts[1..], parts[0].name);
    }
  }

  /** What the object holds under the name of a part; null stands for nothing. */
  lemma PartAt(parts: seq<Part>, i: nat)
    requires Distinct(parts) && i < |parts|
    ensures Obj(MembersOf(parts)).At(parts[i].name) == if parts[i].value.Some? then parts[i].value.value else Null
  {
    PartShows(parts, i);
  }

  lemma {:induction false} NoSuchPart(parts: seq<Part>, m: string)
    requires forall p :: p in parts ==> p.name != m
    ensures m !in MembersOf(parts)
  {
    if parts != [] {
      NoSuchPart(parts[1..], m);
    }
  }

  function NormOption<T>(p: Option<T>, norm: T -> T): Option<T> {
    if p.Some? then Some(norm(p.value)) else None
  }

  /** An empty list reads back as nil. */
  function DropEmpty<T(==)>(xs: Option<seq<T>>): Option<seq<T>> {
    if xs == Some([]) then None else xs
  }

  function NormTable<T>(t: map<string, T>, norm: T -> T): map<string, T> {
    map k | k in t :: norm(t[k])
  }

  lemma FieldReturns<T(!new)>(parts: seq<Part>, i: nat, x: T, was: T, read: (T, Value) -> Option<T>)
    requires Distinct(parts) && i < |parts| && parts[i].value.Some? && read(was, parts[i].value.value) == Some(x)
    ensures Field(MembersOf(parts), parts[i].name, was, read) == Some(x)
  {
    PartShows(parts, i);
  }

  lemma OmittedReturns<T(!new)>(parts: seq<Part>, i: nat, p: Option<T>, x: T,
                                was: T, write: T -> Option<Value>, read: (T, Value) -> Option<T>)
    requires Distinct(parts) && i < |parts| && OmitNil(parts[i].name, p, write) == Some(parts[i])
    requires if p.None? then x == was else Returns(p.value, true, x, was, write, read)
    ensures Field(MembersOf(parts), parts[i].name, was, read) == Some(x)
  {
    PartShows(parts, i);
  }

  lemma PointerReturns<T(!new)>(parts: seq<Part>, i: nat, p: Option<T>, q: Option<T>,
                                zero: T, write: T -> Option<Value>, read: (T, Value) -> Option<T>)
    requires Distinct(parts) && i < |parts| && OmitNil(parts[i].name, p, write) == Some(parts[i])
    requires p.Some? == q.Some? && (p.Some? ==> Returns(p.value, true, q.value, zero, write, read))
    ensures Pointer(MembersOf(parts), parts[i].name, zero, read) == Some(q)
  {
    PartShows(parts, i);
  }

  lemma {:induction false} ItemsReturn<T(!new)>(xs: seq<T>, zero: T, write: T -> Option<Value>, read: (T, Value) -> Option<T>)
    requires forall x :: x in xs ==> Returns(x, true, x, zero, write, read)
    ensures WriteItems(xs, write).Some?
    ensures ReadItems(WriteItems(xs, write).value, zero, read) == Some(xs)
  {
    if xs != [] {
      ItemsReturn(xs[1..], zero, write, read);
      assert xs == [xs[0]] + xs[1..];
      assert Returns(xs[0], true, xs[0], zero, write, read);
      assert WriteItems(xs, write).value[1..] == WriteItems(xs[1..], write).value;
    }
  }

  lemma {:induction false} ItemWritten<T>(xs: seq<T>, write: T -> Option<Value>, i: nat)
    requires WriteItems(xs, write).Some?
    ensures |WriteItems(xs, write).value| == |xs|
    ensures i < |xs| ==> write(xs[i]) == Some(WriteItems(xs, write).value[i])
  {
    if xs != [] {
      ItemWritten(xs[1..], write, if i > 0 then i - 1 else 0);
    }
  }

  lemma SliceIsWritten<T(!new)>(m: string, xs: Option<seq<T>>, zero: T, write: T -> Option<Value>, read: (T, Value) -> Option<T>)
    requires xs.Some? ==> forall x :: x in xs.value ==> Returns(x, true, x, zero, write, read)
    ensures OmitEmpty(m, xs, write).Some?
  {
    if xs.Some? {
      ItemsReturn(xs.value, zero, write, read);
    }
  }

  lemma SliceReturns<T(!new)>(parts: seq<Part>, i: nat, xs: Option<seq<T>>,
                              zero: T, write: T -> Option<Value>, read: (T, Value) -> Option<T>)
    requires Distinct(parts) && i < |parts| && OmitEmpty(parts[i].name, xs, write) == Some(parts[i])
    requires xs.Some? ==> forall x :: x in xs.value ==> Returns(x, true, x, zero, write, read)
    ensures Slice(MembersOf(parts), parts[i].name, zero, read) == Some(DropEmpty(xs))
  {
    PartShows(parts, i);
    if xs.Some? {
      ItemsReturn(xs.value, zero, write, read);
    }
  }

  lemma TableReturns<T(!new)>(parts: seq<Part>, i: nat, t: map<string, T>, ok: T -> bool, norm: T -> T,
                              zero: T, write: T -> Option<Value>, read: (T, Value) -> Option<T>)
    requires Distinct(parts) && i < |parts| && WriteTable(t, write).Some? && parts[i].value == WriteTable(t, write)
    requires forall k :: k in t ==> Returns(t[k], ok(t[k]), norm(t[k]), zero, write, read)
    ensures Table(MembersOf(parts), parts[i].name, zero, read) == Some(Some(NormTable(t, norm)))
  {
    PartShows(parts, i);
    var o := MembersOf(parts)[parts[i].name].members;
    forall k | k in t ensures read(zero, o[k]) == Some(norm(t[k])) {
      assert Returns(t[k], ok(t[k]), norm(t[k]), zero, write, read);
    }
    assert (map k | k in o :: read(zero, o[k]).value) == NormTable(t, norm);
  }

  lemma TableIsWritten<T(!new)>(t: map<string, T>, ok: T -> bool, norm: T -> T,
                                zero: T, write: T -> Option<Value>, read: (T, Value) -> Option<T>)
    requires forall k :: k in t ==> Returns(t[k], ok(t[k]), norm(t[k]), zero, write, read)
    ensures WriteTable(t, write).Some? <==> forall k :: k in t ==> ok(t[k])
    ensures WriteTable(t, write).Some? ==> WriteTable(t, write).value.Obj?
  {
  }
}
