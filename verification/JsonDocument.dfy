/** `crates/dta-ffi/src/json.rs`: what is written of a file's metadata, labels, characteristics and notes, and that it reads back. */
module JsonDocument {
  import opened Wrappers
  import opened Bits
  import opened Utf
  import opened Json

  type Field = (seq<scalar>, Value)

  /** A variable; `title` is its label. */
  datatype Variable = Variable(name: seq<scalar>, storage: seq<scalar>, format: seq<scalar>, title: seq<scalar>, valueLabels: seq<scalar>)

  /** What a file says of itself; `title` is its label. */
  datatype Metadata = Metadata(release: nat, nobs: nat, little: bool, title: seq<scalar>, timestamp: seq<scalar>, encoding: seq<scalar>,
                               sortedBy: seq<nat>, variables: seq<Variable>)

  /** A labelled value, or with a code from 1 on a labelled missing value. */
  datatype Label = Label(missing: nat, value: int, text: seq<scalar>)

  datatype LabelSet = LabelSet(name: seq<scalar>, labels: seq<Label>)

  // ---------------------------------------------------------------- numbers

  function Digits(n: nat): (d: seq<byte>)
    ensures d != [] && forall i :: 0 <= i < |d| ==> 0x30 <= d[i] < 0x3A
  {
    (if n < 10 then [] else Digits(n / 10)) + [0x30 + n % 10]
  }

  function Decimal(i: int): seq<byte>
  {
    if i < 0 then [0x2D] + Digits(-i) else Digits(i)
  }

  /** The number that digits, and a sign before them, say. */
  function NumberOf(token: seq<byte>): int
  {
    if token != [] && token[0] == 0x2D then -DigitsOf(token[1..]) else DigitsOf(token)
  }

  function DigitsOf(d: seq<byte>): int
  {
    if d == [] then 0 else 10 * DigitsOf(d[..|d| - 1]) + d[|d| - 1] as int - 0x30
  }

  lemma {:induction false} DigitsRead(n: nat)
    ensures DigitsOf(Digits(n)) == n
  {
    if n >= 10 {
      DigitsRead(n / 10);
      assert Digits(n)[..|Digits(n)| - 1] == Digits(n / 10);
    }
  }

  /** A number in decimal says that number. */
  lemma DecimalRead(i: int)
    ensures NumberOf(Decimal(i)) == i
  {
    hide DigitsOf;
    if i < 0 {
      DigitsRead(-i);
      assert Decimal(i)[1..] == Digits(-i);
    } else {
      DigitsRead(i);
    }
  }

  /** Numbers in decimal are taken as numbers. */
  ghost predicate TakesDecimals(accepts: seq<byte> -> bool)
  {
    forall i: int :: accepts(Decimal(i))
  }

  lemma DecimalFlat(i: int, accepts: seq<byte> -> bool)
    requires TakesDecimals(accepts)
    ensures Height(Number(Decimal(i))) == 0 && Numbers(Number(Decimal(i)), accepts)
  {
    hide Digits;
    var d := Decimal(i);
    assert accepts(d);
    assert forall k :: 0 <= k < |d| ==> d[k] == 0x2D || 0x30 <= d[k] < 0x3A;
  }

  // ---------------------------------------------------------------- writing

  /** Fields with one more at the end. */
  lemma {:induction false} FieldsPush(fields: seq<Field>, f: Field)
    ensures WrittenFields(fields + [f]) == (if fields == [] then [] else WrittenFields(fields) + [COMMA]) + WrittenField(f)
    ensures WrittenField(f) == Quoted(f.0) + [COLON] + Written(f.1)
  {
    hide Written, Quoted;
    if fields != [] {
      var rest := fields[1..];
      assert (fields + [f])[1..] == rest + [f];
      FieldsPush(rest, f);
      var head := WrittenField(fields[0]);
      if rest == [] {
        assert fields == [fields[0]];
      } else {
        assert head + [COMMA] + ((WrittenFields(rest) + [COMMA]) + WrittenField(f)) == (head + [COMMA] + WrittenFields(rest)) + [COMMA] + WrittenField(f);
      }
    }
  }

  /** One field more is written and nests as its value does. */
  lemma {:induction false} FieldsMore(fields: seq<Field>, f: Field, most: nat, accepts: seq<byte> -> bool)
    requires FieldsHeight(fields) <= most && FieldNumbers(fields, accepts) && FieldHeight(f) <= most && FieldNumber(f, accepts)
    ensures FieldsHeight(fields + [f]) <= most && FieldNumbers(fields + [f], accepts)
  {
    hide FieldHeight, FieldNumber;
    if fields != [] {
      assert (fields + [f])[1..] == fields[1..] + [f];
      FieldsMore(fields[1..], f, most, accepts);
    } else {
      assert (fields + [f])[1..] == [];
    }
  }

  /** What has been written is an object so far, of these fields. */
  ghost predicate ObjectSo(o: seq<byte>, fields: seq<Field>)
  {
    o == [OPEN_BRACE] + WrittenFields(fields)
  }

  lemma ObjectBegins()
    ensures ObjectSo([OPEN_BRACE], [])
  {}

  /** One field more; `b` is its value. */
  method AddField(o: seq<byte>, first: bool, name: seq<scalar>, b: seq<byte>, ghost fields: seq<Field>, ghost v: Value) returns (now: seq<byte>)
    requires ObjectSo(o, fields) && (first <==> fields == []) && b == Written(v)
    ensures ObjectSo(now, fields + [(name, v)])
  {
    hide Written, WrittenFields, Quoted;
    FieldsPush(fields, (name, v));
    NoFields();
    now := if first then o else o + [COMMA];
    now := PutString(now, name);
    now := now + [COLON] + b;
    var so := WrittenFields(fields);
    if first {
      assert now == [OPEN_BRACE] + ([] + (Quoted(name) + [COLON] + b));
    } else {
      assert now == [OPEN_BRACE] + ((so + [COMMA]) + (Quoted(name) + [COLON] + b));
    }
  }

  method AddText(o: seq<byte>, first: bool, name: seq<scalar>, text: seq<scalar>, ghost fields: seq<Field>) returns (now: seq<byte>)
    requires ObjectSo(o, fields) && (first <==> fields == [])
    ensures ObjectSo(now, fields + [(name, String(text))])
  {
    hide ObjectSo, Quoted;
    var b := PutString([], text);
    assert b == Written(String(text));
    now := AddField(o, first, name, b, fields, String(text));
  }

  lemma NoFields()
    ensures WrittenFields([]) == []
  {}

  lemma ObjectEnds(o: seq<byte>, fields: seq<Field>)
    requires ObjectSo(o, fields)
    ensures o + [CLOSE_BRACE] == Written(Object(fields))
  {}

  /** What has been written is an array so far, of these items. */
  ghost predicate ArraySo(o: seq<byte>, items: seq<Value>)
  {
    o == [OPEN] + WrittenItems(items)
  }

  lemma ArrayBegins()
    ensures ArraySo([OPEN], [])
  {}

  lemma ArrayMore(o: seq<byte>, items: seq<Value>, v: Value)
    requires ArraySo(o, items)
    ensures ArraySo((if items == [] then o else o + [COMMA]) + Written(v), items + [v])
  {
    hide Written;
    ItemsPush(items, v);
    var so := WrittenItems(items);
    if items == [] {
      assert o + Written(v) == [OPEN] + ([] + Written(v));
    } else {
      assert o + [COMMA] + Written(v) == [OPEN] + ((so + [COMMA]) + Written(v));
    }
  }

  lemma ArrayEnds(o: seq<byte>, items: seq<Value>)
    requires ArraySo(o, items)
    ensures o + [CLOSE] == Written(Array(items))
  {}

  // ---------------------------------------------------------------- metadata

  function NumberValues(ns: seq<nat>): (r: seq<Value>)
    ensures |r| == |ns|
  {
    if ns == [] then [] else NumberValues(ns[..|ns| - 1]) + [Number(Decimal(ns[|ns| - 1]))]
  }

  function VariableFields(v: Variable): seq<Field>
  {
    [(Name("name"), String(v.name))] + [(Name("type"), String(v.storage))] + [(Name("format"), String(v.format))]
    + [(Name("label"), String(v.title))] + [(Name("valueLabels"), String(v.valueLabels))]
  }

  function VariableValues(vs: seq<Variable>): (r: seq<Value>)
    ensures |r| == |vs|
  {
    if vs == [] then [] else VariableValues(vs[..|vs| - 1]) + [Object(VariableFields(vs[|vs| - 1]))]
  }

  function MetadataFields(m: Metadata): seq<Field>
  {
    [(Name("release"), Number(Decimal(m.release)))] + [(Name("nobs"), Number(Decimal(m.nobs)))]
    + [(Name("byteOrder"), String(if m.little then Name("little") else Name("big")))]
    + [(Name("label"), String(m.title))] + [(Name("timestamp"), String(m.timestamp))] + [(Name("encoding"), String(m.encoding))]
    + [(Name("sortedBy"), Array(NumberValues(m.sortedBy)))] + [(Name("variables"), Array(VariableValues(m.variables)))]
  }

  method PutNumbers(ns: seq<nat>) returns (o: seq<byte>)
    ensures o == Written(Array(NumberValues(ns)))
  {
    hide Written, ArraySo, Decimal;
    o := [OPEN];
    ArrayBegins();
    var i := 0;
    while i < |ns|
      invariant i <= |ns| && ArraySo(o, NumberValues(ns[..i]))
    {
      assert ns[..i + 1][..i] == ns[..i];
      ArrayMore(o, NumberValues(ns[..i]), Number(Decimal(ns[i])));
      NumberWritten(Decimal(ns[i]));
      if i > 0 {
        o := o + [COMMA];
      }
      o := o + Decimal(ns[i]);
      i := i + 1;
    }
    assert ns[..i] == ns;
    ArrayEnds(o, NumberValues(ns));
    o := o + [CLOSE];
  }

  lemma NumberWritten(token: seq<byte>)
    ensures Written(Number(token)) == token
  {}

  method PutVariable(v: Variable) returns (o: seq<byte>)
    ensures o == Written(Object(VariableFields(v)))
  {
    hide Written, ObjectSo, Name;
    ObjectBegins();
    ghost var f: seq<Field> := [];
    o := AddText([OPEN_BRACE], true, Name("name"), v.name, f);
    f := f + [(Name("name"), String(v.name))];
    o := AddText(o, false, Name("type"), v.storage, f);
    f := f + [(Name("type"), String(v.storage))];
    o := AddText(o, false, Name("format"), v.format, f);
    f := f + [(Name("format"), String(v.format))];
    o := AddText(o, false, Name("label"), v.title, f);
    f := f + [(Name("label"), String(v.title))];
    o := AddText(o, false, Name("valueLabels"), v.valueLabels, f);
    f := f + [(Name("valueLabels"), String(v.valueLabels))];
    assert f == VariableFields(v);
    ObjectEnds(o, f);
    o := o + [CLOSE_BRACE];
  }

  method PutVariables(vs: seq<Variable>) returns (o: seq<byte>)
    ensures o == Written(Array(VariableValues(vs)))
  {
    hide Written, ArraySo, VariableFields;
    o := [OPEN];
    ArrayBegins();
    var i := 0;
    while i < |vs|
      invariant i <= |vs| && ArraySo(o, VariableValues(vs[..i]))
    {
      assert vs[..i + 1][..i] == vs[..i];
      ArrayMore(o, VariableValues(vs[..i]), Object(VariableFields(vs[i])));
      if i > 0 {
        o := o + [COMMA];
      }
      var b := PutVariable(vs[i]);
      o := o + b;
      i := i + 1;
    }
    assert vs[..i] == vs;
    ArrayEnds(o, VariableValues(vs));
    o := o + [CLOSE];
  }

  /** The metadata, all but its last brace. */
  method PutMetadata(m: Metadata) returns (o: seq<byte>)
    ensures ObjectSo(o, MetadataFields(m))
  {
    hide Written, ObjectSo, Name, Decimal;
    ObjectBegins();
    ghost var f: seq<Field> := [];
    NumberWritten(Decimal(m.release));
    o := AddField([OPEN_BRACE], true, Name("release"), Decimal(m.release), f, Number(Decimal(m.release)));
    f := f + [(Name("release"), Number(Decimal(m.release)))];
    NumberWritten(Decimal(m.nobs));
    o := AddField(o, false, Name("nobs"), Decimal(m.nobs), f, Number(Decimal(m.nobs)));
    f := f + [(Name("nobs"), Number(Decimal(m.nobs)))];
    var order := if m.little then Name("little") else Name("big");
    o := AddText(o, false, Name("byteOrder"), order, f);
    f := f + [(Name("byteOrder"), String(order))];
    o := AddText(o, false, Name("label"), m.title, f);
    f := f + [(Name("label"), String(m.title))];
    o := AddText(o, false, Name("timestamp"), m.timestamp, f);
    f := f + [(Name("timestamp"), String(m.timestamp))];
    o := AddText(o, false, Name("encoding"), m.encoding, f);
    f := f + [(Name("encoding"), String(m.encoding))];
    var sorted := PutNumbers(m.sortedBy);
    o := AddField(o, false, Name("sortedBy"), sorted, f, Array(NumberValues(m.sortedBy)));
    f := f + [(Name("sortedBy"), Array(NumberValues(m.sortedBy)))];
    var variables := PutVariables(m.variables);
    o := AddField(o, false, Name("variables"), variables, f, Array(VariableValues(m.variables)));
    f := f + [(Name("variables"), Array(VariableValues(m.variables)))];
    assert f == MetadataFields(m);
  }

  method MetadataText(m: Metadata) returns (o: seq<byte>)
    ensures o == Written(Object(MetadataFields(m)))
  {
    hide Written, ObjectSo, MetadataFields;
    o := PutMetadata(m);
    ObjectEnds(o, MetadataFields(m));
    o := o + [CLOSE_BRACE];
  }

  // ---------------------------------------------------------------- value labels

  /** The name of a missing value's code: `.`, or `.a` to `.z`. */
  function MissingName(code: nat): Option<seq<scalar>>
  {
    if code == 1 then Some(Name(".")) else if 2 <= code <= 27 then Some([0x2E, 0x61 + code - 2]) else None
  }

  /** The code of a missing value's name. */
  function MissingCode(name: seq<scalar>): Option<nat>
  {
    if name == Name(".") then Some(1)
    else if |name| == 2 && name[0] == 0x2E && 0x61 <= name[1] < 0x7B then Some(name[1] as int - 0x61 + 2)
    else None
  }

  /** Codes 1 to 27 have names, the letters in order, and each name is that of its code alone. */
  lemma MissingRound(code: nat, name: seq<scalar>)
    ensures MissingName(code) != None <==> 1 <= code <= 27
    ensures MissingName(1) == Some(Name(".")) && (2 <= code <= 27 ==> MissingName(code) == Some(Name("." + ["abcdefghijklmnopqrstuvwxyz"[code - 2]])))
    ensures MissingName(code) == Some(name) <==> MissingCode(name) == Some(code)
  {
    if 2 <= code <= 27 {
      LetterIs(code - 2);
      assert Name("." + ["abcdefghijklmnopqrstuvwxyz"[code - 2]]) == [0x2E, 0x61 + code - 2];
    }
    if |name| == 2 {
      assert name == [name[0], name[1]];
    }
  }

  lemma LetterIs(k: nat)
    requires k < 26
    ensures "abcdefghijklmnopqrstuvwxyz"[k] as int == 0x61 + k
  {}

  function LabelValue(l: Label): Value
  {
    Array([if MissingName(l.missing) == None then Number(Decimal(l.value)) else String(MissingName(l.missing).value)] + [String(l.text)])
  }

  function LabelValues(ls: seq<Label>): (r: seq<Value>)
    ensures |r| == |ls|
  {
    if ls == [] then [] else LabelValues(ls[..|ls| - 1]) + [LabelValue(ls[|ls| - 1])]
  }

  function SetFields(s: LabelSet): seq<Field>
  {
    [(Name("name"), String(s.name))] + [(Name("labels"), Array(LabelValues(s.labels)))]
  }

  function SetValues(sets: seq<LabelSet>): (r: seq<Value>)
    ensures |r| == |sets|
  {
    if sets == [] then [] else SetValues(sets[..|sets| - 1]) + [Object(SetFields(sets[|sets| - 1]))]
  }

  method PutLabel(l: Label) returns (o: seq<byte>)
    ensures o == Written(LabelValue(l))
  {
    hide ArraySo, WrittenItems, Quoted, MissingName, Decimal;
    ArrayBegins();
    var name := MissingName(l.missing);
    ghost var v := if name == None then Number(Decimal(l.value)) else String(name.value);
    o := [OPEN];
    if name == None {
      o := o + Decimal(l.value);
    } else {
      o := PutString(o, name.value);
    }
    ArrayMore([OPEN], [], v);
    assert o == [OPEN] + Written(v) && [v] == [] + [v];
    ArrayMore(o, [v], String(l.text));
    o := PutString(o + [COMMA], l.text);
    ArrayEnds(o, [v] + [String(l.text)]);
    o := o + [CLOSE];
  }

  method PutLabels(ls: seq<Label>) returns (o: seq<byte>)
    ensures o == Written(Array(LabelValues(ls)))
  {
    hide Written, ArraySo, LabelValue;
    o := [OPEN];
    ArrayBegins();
    var i := 0;
    while i < |ls|
      invariant i <= |ls| && ArraySo(o, LabelValues(ls[..i]))
    {
      assert ls[..i + 1][..i] == ls[..i];
      ArrayMore(o, LabelValues(ls[..i]), LabelValue(ls[i]));
      if i > 0 {
        o := o + [COMMA];
      }
      var b := PutLabel(ls[i]);
      o := o + b;
      i := i + 1;
    }
    assert ls[..i] == ls;
    ArrayEnds(o, LabelValues(ls));
    o := o + [CLOSE];
  }

  method PutSet(s: LabelSet) returns (o: seq<byte>)
    ensures o == Written(Object(SetFields(s)))
  {
    hide Written, ObjectSo, Name;
    ObjectBegins();
    ghost var f: seq<Field> := [];
    o := AddText([OPEN_BRACE], true, Name("name"), s.name, f);
    f := f + [(Name("name"), String(s.name))];
    var b := PutLabels(s.labels);
    o := AddField(o, false, Name("labels"), b, f, Array(LabelValues(s.labels)));
    f := f + [(Name("labels"), Array(LabelValues(s.labels)))];
    assert f == SetFields(s);
    ObjectEnds(o, f);
    o := o + [CLOSE_BRACE];
  }

  method ValueLabels(sets: seq<LabelSet>) returns (o: seq<byte>)
    ensures o == Written(Array(SetValues(sets)))
  {
    hide Written, ArraySo, SetFields;
    o := [OPEN];
    ArrayBegins();
    var i := 0;
    while i < |sets|
      invariant i <= |sets| && ArraySo(o, SetValues(sets[..i]))
    {
      assert sets[..i + 1][..i] == sets[..i];
      ArrayMore(o, SetValues(sets[..i]), Object(SetFields(sets[i])));
      if i > 0 {
        o := o + [COMMA];
      }
      var b := PutSet(sets[i]);
      o := o + b;
      i := i + 1;
    }
    assert sets[..i] == sets;
    ArrayEnds(o, SetValues(sets));
    o := o + [CLOSE];
  }

  // ---------------------------------------------------------------- a document

  /** A characteristic of the dataset that is named `note` and then digits. */
  predicate IsNote(c: Characteristic)
  {
    && c.variable == Name("_dta")
    && |c.name| > 4 && c.name[..4] == Name("note")
    && forall i :: 4 <= i < |c.name| ==> 0x30 <= c.name[i] < 0x3A
  }

  function NotNotes(chars: seq<Characteristic>): (r: seq<Characteristic>)
    ensures forall c :: c in r <==> c in chars && !IsNote(c)
  {
    if chars == [] then [] else
    NotNotes(chars[..|chars| - 1]) + if IsNote(chars[|chars| - 1]) then [] else [chars[|chars| - 1]]
  }

  ghost predicate AllDigits(d: seq<scalar>)
  {
    forall i :: 0 <= i < |d| ==> d[i] as char in "0123456789"
  }

  lemma NotesNamed(c: Characteristic)
    ensures IsNote(c) <==> c.variable == Name("_dta") && exists d: seq<scalar> :: d != [] && AllDigits(d) && c.name == Name("note") + d
  {
    if IsNote(c) {
      var d := c.name[4..];
      assert c.name == c.name[..4] + d;
      assert AllDigits(d);
    }
  }

  /** What is not a note stays, in its order. */
  lemma {:induction false} NotNotesJoin(a: seq<Characteristic>, b: seq<Characteristic>, c: Characteristic)
    ensures NotNotes(a + b) == NotNotes(a) + NotNotes(b) && NotNotes([c]) == if IsNote(c) then [] else [c]
  {
    hide IsNote;
    assert [c][..0] == [];
    if b == [] {
      assert a + b == a;
    } else {
      var front, last := b[..|b| - 1], if IsNote(b[|b| - 1]) then [] else [b[|b| - 1]];
      NotNotesJoin(a, front, c);
      assert (a + b)[..|a + b| - 1] == a + front && (a + b)[|a + b| - 1] == b[|b| - 1];
      assert NotNotes(a + b) == NotNotes(a + front) + last && NotNotes(b) == NotNotes(front) + last;
      Regroup(NotNotes(a), NotNotes(front), last);
    }
  }

  /** The fields of a document: those of the metadata, then the labels, characteristics and notes. */
  function DocumentFields(m: Metadata, sets: seq<LabelSet>, chars: seq<Characteristic>, notes: seq<seq<scalar>>): seq<Field>
  {
    MetadataFields(m) + [(Name("valueLabels"), Array(SetValues(sets)))]
    + [(Name("characteristics"), Array(CharacteristicValues(NotNotes(chars))))] + [(Name("notes"), Array(Texts(notes)))]
  }

  /** All that is known of a file besides its rows, written into the metadata's object before its closing brace. */
  method Document(m: Metadata, sets: seq<LabelSet>, chars: seq<Characteristic>, notes: seq<seq<scalar>>) returns (o: seq<byte>)
    ensures o == Written(Object(DocumentFields(m, sets, chars, notes)))
  {
    hide Written, WrittenFields, ObjectSo, MetadataFields, SetValues, Name;
    o := MetadataText(m);
    LastBrace(o, MetadataFields(m));
    SomeFields(m);
    o := o[..|o| - 1];
    ghost var f := MetadataFields(m);
    var labels := ValueLabels(sets);
    o := AddField(o, false, Name("valueLabels"), labels, f, Array(SetValues(sets)));
    f := f + [(Name("valueLabels"), Array(SetValues(sets)))];
    var kept := Characteristics(NotNotes(chars));
    o := AddField(o, false, Name("characteristics"), kept, f, Array(CharacteristicValues(NotNotes(chars))));
    f := f + [(Name("characteristics"), Array(CharacteristicValues(NotNotes(chars))))];
    var texts := Strings(notes);
    o := AddField(o, false, Name("notes"), texts, f, Array(Texts(notes)));
    f := f + [(Name("notes"), Array(Texts(notes)))];
    ObjectEnds(o, f);
    o := o + [CLOSE_BRACE];
  }

  lemma LastBrace(o: seq<byte>, fields: seq<Field>)
    requires o == Written(Object(fields))
    ensures o != [] && ObjectSo(o[..|o| - 1], fields)
  {}

  lemma SomeFields(m: Metadata)
    ensures MetadataFields(m) != []
  {}

  // ---------------------------------------------------------------- reading it back

  /** Values that nest at most so deep, of numbers that are taken as numbers. */
  ghost predicate Shallow(v: Value, most: nat, accepts: seq<byte> -> bool)
  {
    Height(v) <= most && Numbers(v, accepts)
  }

  lemma {:induction false} ShallowItems(items: seq<Value>, most: nat, accepts: seq<byte> -> bool)
    requires forall i :: 0 <= i < |items| ==> Shallow(items[i], most, accepts)
    ensures ItemsHeight(items) <= most && ItemNumbers(items, accepts)
  {
    hide Height, Numbers;
    if items != [] {
      assert Shallow(items[0], most, accepts);
      forall i | 0 <= i < |items[1..]|
        ensures Shallow(items[1..][i], most, accepts)
      {
        assert Shallow(items[i + 1], most, accepts);
      }
      ShallowItems(items[1..], most, accepts);
    }
  }

  lemma ShallowArray(items: seq<Value>, most: nat, accepts: seq<byte> -> bool)
    requires forall i :: 0 <= i < |items| ==> Shallow(items[i], most, accepts)
    ensures Shallow(Array(items), most + 1, accepts)
  {
    hide ItemsHeight, ItemNumbers;
    ShallowItems(items, most, accepts);
  }

  ghost predicate ShallowFields(fields: seq<Field>, most: nat, accepts: seq<byte> -> bool)
  {
    FieldsHeight(fields) <= most && FieldNumbers(fields, accepts)
  }

  lemma NoneShallow(most: nat, accepts: seq<byte> -> bool)
    ensures ShallowFields([], most, accepts)
  {}

  lemma MoreShallow(fields: seq<Field>, f: Field, most: nat, accepts: seq<byte> -> bool)
    requires ShallowFields(fields, most, accepts) && Shallow(f.1, most, accepts)
    ensures ShallowFields(fields + [f], most, accepts)
  {
    hide FieldsHeight, FieldNumbers, Height, Numbers;
    assert FieldHeight(f) <= most && FieldNumber(f, accepts);
    FieldsMore(fields, f, most, accepts);
  }

  lemma ShallowObject(fields: seq<Field>, most: nat, accepts: seq<byte> -> bool)
    requires ShallowFields(fields, most, accepts)
    ensures Shallow(Object(fields), most + 1, accepts)
  {}

  lemma TextShallow(text: seq<scalar>, most: nat, accepts: seq<byte> -> bool)
    ensures Shallow(String(text), most, accepts)
  {}

  lemma NumberShallow(i: int, most: nat, accepts: seq<byte> -> bool)
    requires TakesDecimals(accepts)
    ensures Shallow(Number(Decimal(i)), most, accepts)
  {
    DecimalFlat(i, accepts);
  }

  lemma {:induction false} NumbersShallow(ns: seq<nat>, accepts: seq<byte> -> bool)
    requires TakesDecimals(accepts)
    ensures forall i :: 0 <= i < |ns| ==> Shallow(NumberValues(ns)[i], 0, accepts)
  {
    hide Shallow, Decimal, TakesDecimals;
    if ns != [] {
      NumbersShallow(ns[..|ns| - 1], accepts);
      NumberShallow(ns[|ns| - 1], 0, accepts);
    }
  }

  lemma VariableShallow(v: Variable, accepts: seq<byte> -> bool)
    ensures Shallow(Object(VariableFields(v)), 1, accepts)
  {
    hide Shallow, ShallowFields, Name;
    NoneShallow(0, accepts);
    var f: seq<Field> := [];
    f := MoreText(f, Name("name"), v.name, 0, accepts);
    f := MoreText(f, Name("type"), v.storage, 0, accepts);
    f := MoreText(f, Name("format"), v.format, 0, accepts);
    f := MoreText(f, Name("label"), v.title, 0, accepts);
    f := MoreText(f, Name("valueLabels"), v.valueLabels, 0, accepts);
    assert f == VariableFields(v);
    ShallowObject(f, 0, accepts);
  }

  lemma MoreText(fields: seq<Field>, name: seq<scalar>, text: seq<scalar>, most: nat, accepts: seq<byte> -> bool) returns (now: seq<Field>)
    requires ShallowFields(fields, most, accepts)
    ensures now == fields + [(name, String(text))] && ShallowFields(now, most, accepts)
  {
    hide Shallow, ShallowFields;
    TextShallow(text, most, accepts);
    MoreShallow(fields, (name, String(text)), most, accepts);
    now := fields + [(name, String(text))];
  }

  lemma {:induction false} VariablesShallow(vs: seq<Variable>, accepts: seq<byte> -> bool)
    ensures forall i :: 0 <= i < |vs| ==> Shallow(VariableValues(vs)[i], 1, accepts)
  {
    hide Shallow, VariableFields;
    if vs != [] {
      VariablesShallow(vs[..|vs| - 1], accepts);
      VariableShallow(vs[|vs| - 1], accepts);
    }
  }

  lemma MetadataShallow(m: Metadata, most: nat, accepts: seq<byte> -> bool)
    requires TakesDecimals(accepts) && most >= 2
    ensures ShallowFields(MetadataFields(m), most, accepts)
  {
    hide Shallow, ShallowFields, Name, Decimal, TakesDecimals;
    NoneShallow(most, accepts);
    NumberShallow(m.release, most, accepts);
    MoreShallow([], (Name("release"), Number(Decimal(m.release))), most, accepts);
    var f: seq<Field> := [] + [(Name("release"), Number(Decimal(m.release)))];
    NumberShallow(m.nobs, most, accepts);
    MoreShallow(f, (Name("nobs"), Number(Decimal(m.nobs))), most, accepts);
    f := f + [(Name("nobs"), Number(Decimal(m.nobs)))];
    f := MoreText(f, Name("byteOrder"), if m.little then Name("little") else Name("big"), most, accepts);
    f := MoreText(f, Name("label"), m.title, most, accepts);
    f := MoreText(f, Name("timestamp"), m.timestamp, most, accepts);
    f := MoreText(f, Name("encoding"), m.encoding, most, accepts);
    NumbersShallow(m.sortedBy, accepts);
    ShallowArray(NumberValues(m.sortedBy), 0, accepts);
    Deeper(Array(NumberValues(m.sortedBy)), 1, most, accepts);
    MoreShallow(f, (Name("sortedBy"), Array(NumberValues(m.sortedBy))), most, accepts);
    f := f + [(Name("sortedBy"), Array(NumberValues(m.sortedBy)))];
    VariablesShallow(m.variables, accepts);
    ShallowArray(VariableValues(m.variables), 1, accepts);
    Deeper(Array(VariableValues(m.variables)), 2, most, accepts);
    MoreShallow(f, (Name("variables"), Array(VariableValues(m.variables))), most, accepts);
    f := f + [(Name("variables"), Array(VariableValues(m.variables)))];
    assert f == MetadataFields(m);
  }

  lemma Deeper(v: Value, least: nat, most: nat, accepts: seq<byte> -> bool)
    requires Shallow(v, least, accepts) && least <= most
    ensures Shallow(v, most, accepts)
  {}

  lemma LabelShallow(l: Label, accepts: seq<byte> -> bool)
    requires TakesDecimals(accepts)
    ensures Shallow(LabelValue(l), 1, accepts)
  {
    hide Shallow, Decimal, TakesDecimals, MissingName;
    NumberShallow(l.value, 0, accepts);
    TextShallow(if MissingName(l.missing) == None then [] else MissingName(l.missing).value, 0, accepts);
    TextShallow(l.text, 0, accepts);
    ShallowArray(LabelValue(l).items, 0, accepts);
  }

  lemma {:induction false} LabelsShallow(ls: seq<Label>, accepts: seq<byte> -> bool)
    requires TakesDecimals(accepts)
    ensures forall i :: 0 <= i < |ls| ==> Shallow(LabelValues(ls)[i], 1, accepts)
  {
    hide Shallow, LabelValue, TakesDecimals;
    if ls != [] {
      LabelsShallow(ls[..|ls| - 1], accepts);
      LabelShallow(ls[|ls| - 1], accepts);
    }
  }

  lemma SetShallow(s: LabelSet, accepts: seq<byte> -> bool)
    requires TakesDecimals(accepts)
    ensures Shallow(Object(SetFields(s)), 3, accepts)
  {
    hide Shallow, ShallowFields, Name, TakesDecimals;
    NoneShallow(2, accepts);
    var f := MoreText([], Name("name"), s.name, 2, accepts);
    LabelsShallow(s.labels, accepts);
    ShallowArray(LabelValues(s.labels), 1, accepts);
    MoreShallow(f, (Name("labels"), Array(LabelValues(s.labels))), 2, accepts);
    f := f + [(Name("labels"), Array(LabelValues(s.labels)))];
    assert f == SetFields(s);
    ShallowObject(f, 2, accepts);
  }

  lemma {:induction false} SetsShallow(sets: seq<LabelSet>, accepts: seq<byte> -> bool)
    requires TakesDecimals(accepts)
    ensures forall i :: 0 <= i < |sets| ==> Shallow(SetValues(sets)[i], 3, accepts)
  {
    hide Shallow, SetFields, TakesDecimals;
    if sets != [] {
      SetsShallow(sets[..|sets| - 1], accepts);
      SetShallow(sets[|sets| - 1], accepts);
    }
  }

  lemma ShallowRead(v: Value, most: nat, accepts: seq<byte> -> bool)
    requires Shallow(v, most, accepts) && most <= MOST_DEPTH
    ensures Parse(Written(v), accepts) == Ok(v, |Written(v)|)
  {
    hide Parse, Written, Height, Numbers;
    ParseWritten(v, accepts);
  }

  /** Reading back what was written of metadata gives its fields. */
  lemma MetadataRoundTrip(m: Metadata, accepts: seq<byte> -> bool)
    requires TakesDecimals(accepts)
    ensures var v := Object(MetadataFields(m)); Parse(Written(v), accepts) == Ok(v, |Written(v)|)
  {
    hide Parse, Written, Shallow, ShallowFields, MetadataFields, TakesDecimals;
    MetadataShallow(m, 2, accepts);
    ShallowObject(MetadataFields(m), 2, accepts);
    ShallowRead(Object(MetadataFields(m)), 3, accepts);
  }

  /** Reading back what was written of value labels gives their sets. */
  lemma ValueLabelsRoundTrip(sets: seq<LabelSet>, accepts: seq<byte> -> bool)
    requires TakesDecimals(accepts)
    ensures var v := Array(SetValues(sets)); Parse(Written(v), accepts) == Ok(v, |Written(v)|)
  {
    hide Parse, Written, Shallow, TakesDecimals;
    SetsShallow(sets, accepts);
    ShallowArray(SetValues(sets), 3, accepts);
    ShallowRead(Array(SetValues(sets)), 4, accepts);
  }

  /** Reading back a document gives the metadata's fields, and then what was put after them. */
  lemma DocumentRoundTrip(m: Metadata, sets: seq<LabelSet>, chars: seq<Characteristic>, notes: seq<seq<scalar>>, accepts: seq<byte> -> bool)
    requires TakesDecimals(accepts)
    ensures var v := Object(DocumentFields(m, sets, chars, notes)); Parse(Written(v), accepts) == Ok(v, |Written(v)|)
  {
    hide Parse, Written, Shallow, ShallowFields, MetadataFields, TakesDecimals, Name, Flat;
    MetadataShallow(m, 4, accepts);
    var f := MetadataFields(m);
    SetsShallow(sets, accepts);
    ShallowArray(SetValues(sets), 3, accepts);
    MoreShallow(f, (Name("valueLabels"), Array(SetValues(sets))), 4, accepts);
    f := f + [(Name("valueLabels"), Array(SetValues(sets)))];
    var kept := CharacteristicValues(NotNotes(chars));
    CharacteristicsFlat(NotNotes(chars), accepts);
    FlatShallow(kept, accepts);
    MoreShallow(f, (Name("characteristics"), Array(kept)), 4, accepts);
    f := f + [(Name("characteristics"), Array(kept))];
    TextsFlat(notes, accepts);
    FlatShallow(Texts(notes), accepts);
    MoreShallow(f, (Name("notes"), Array(Texts(notes))), 4, accepts);
    f := f + [(Name("notes"), Array(Texts(notes)))];
    ShallowObject(f, 4, accepts);
    ShallowRead(Object(f), 5, accepts);
  }

  lemma FlatShallow(items: seq<Value>, accepts: seq<byte> -> bool)
    requires forall i :: 0 <= i < |items| ==> Flat(items[i], accepts)
    ensures Shallow(Array(items), 4, accepts)
  {
    hide Height, Numbers;
    forall i | 0 <= i < |items|
      ensures Shallow(items[i], 3, accepts)
    {
      assert Flat(items[i], accepts);
    }
    ShallowArray(items, 3, accepts);
  }
}
