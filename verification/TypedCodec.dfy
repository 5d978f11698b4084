/**
 The `__pytype__` codec of the canonical vectors. Encoded values are themselves
 plain values, as in the program.

 A typed scalar is identified with its printed form. Set elements are scalars,
 and `sorted` is any fixed listing of the set.
 */
module TypedCodec {
  import opened Options

  /** `Other` stands for None, booleans and numbers. */
  datatype Scalar =
    | Text(text: string)
    | Decimal(repr: string)
    | Uuid(repr: string)
    | DateTime(repr: string)
    | Bytes(b64: string)
    | Other(repr: string)

  datatype Value =
    | Atom(scalar: Scalar)
    | Set(items: set<Scalar>)
    | List(elements: seq<Value>)
    | Dict(entries: seq<Entry>)

  datatype Entry = Entry(key: string, value: Value)

  datatype DecodeError = MissingKey | NotText | NotIterable | Unhashable

  const TAG := "__pytype__"

  const TAGS: set<string> := {"Decimal", "UUID", "datetime", "set", "bytes"}

  function Lookup(es: seq<Entry>, key: string): Option<Value> {
    if es == [] then None else if es[0].key == key then Some(es[0].value) else Lookup(es[1..], key)
  }

  ghost function Listing(s: set<Scalar>): (items: seq<Scalar>)
    ensures forall x :: x in items <==> x in s
  {
    if s == {} then [] else var x :| x in s; [x] + Listing(s - {x})
  }

  // ---- encode_typed ----

  function Tagged(tag: string, key: string, v: Value): Value {
    Dict([Entry(TAG, Atom(Text(tag))), Entry(key, v)])
  }

  function EncodeScalar(s: Scalar): Value {
    match s
    case Decimal(repr) => Tagged("Decimal", "repr", Atom(Text(repr)))
    case Uuid(repr) => Tagged("UUID", "repr", Atom(Text(repr)))
    case DateTime(repr) => Tagged("datetime", "repr", Atom(Text(repr)))
    case Bytes(b64) => Tagged("bytes", "b64", Atom(Text(b64)))
    case Text(_) => Atom(s)
    case Other(_) => Atom(s)
  }

  function EncodeScalars(ss: seq<Scalar>): seq<Value> {
    if ss == [] then [] else [EncodeScalar(ss[0])] + EncodeScalars(ss[1..])
  }

  /** Lists are passed through as they are. */
  ghost function Encode(v: Value): Value
    decreases v, 1
  {
    match v
    case Atom(s) => EncodeScalar(s)
    case Set(items) => Tagged("set", "items", List(EncodeScalars(Listing(items))))
    case List(_) => v
    case Dict(es) => Dict(EncodeEntries(es))
  }

  ghost function EncodeEntries(es: seq<Entry>): seq<Entry>
    decreases es, 0
  {
    if es == [] then [] else [Entry(es[0].key, Encode(es[0].value))] + EncodeEntries(es[1..])
  }

  // ---- decode_typed ----

  function TextAt(es: seq<Entry>, key: string): Result<string, DecodeError> {
    match Lookup(es, key)
    case None => Err(MissingKey)
    case Some(Atom(Text(t))) => Ok(t)
    case Some(_) => Err(NotText)
  }

  function MapScalar(r: Result<string, DecodeError>, make: string -> Scalar): Result<Value, DecodeError> {
    match r
    case Ok(t) => Ok(Atom(make(t)))
    case Err(e) => Err(e)
  }

  function Decode(v: Value): Result<Value, DecodeError>
    decreases v, 1
  {
    match v
    case Dict(es) =>
      var tag := Lookup(es, TAG);
      if tag == Some(Atom(Text("Decimal"))) then MapScalar(TextAt(es, "repr"), t => Decimal(t))
      else if tag == Some(Atom(Text("UUID"))) then MapScalar(TextAt(es, "repr"), t => Uuid(t))
      else if tag == Some(Atom(Text("datetime"))) then MapScalar(TextAt(es, "repr"), t => DateTime(t))
      else if tag == Some(Atom(Text("set"))) then DecodeSet(es)
      else if tag == Some(Atom(Text("bytes"))) then MapScalar(TextAt(es, "b64"), t => Bytes(t))
      else
        (match DecodeEntries(es)
         case Ok(ds) => Ok(Dict(ds))
         case Err(e) => Err(e))
    case _ => Ok(v)
  }

  function DecodeEntries(es: seq<Entry>): Result<seq<Entry>, DecodeError>
    decreases es, 0
  {
    if es == [] then Ok([])
    else
      match Decode(es[0].value)
      case Err(e) => Err(e)
      case Ok(d) =>
        match DecodeEntries(es[1..])
        case Err(e) => Err(e)
        case Ok(ds) => Ok([Entry(es[0].key, d)] + ds)
  }

  /** The members of a decoded set: each item is decoded and has to be hashable. */
  function DecodeItems(vs: seq<Value>): Result<set<Scalar>, DecodeError>
    decreases vs, 0
  {
    if vs == [] then Ok({})
    else
      match Decode(vs[0])
      case Err(e) => Err(e)
      case Ok(Atom(s)) =>
        (match DecodeItems(vs[1..])
         case Err(e) => Err(e)
         case Ok(ss) => Ok({s} + ss))
      case Ok(_) => Err(Unhashable)
  }

  function Members(ss: seq<Scalar>): set<Scalar> {
    set x | x in ss
  }

  function CharacterSet(s: string): set<Scalar> {
    set c | c in s :: Text([c])
  }

  function KeySet(es: seq<Entry>): set<Scalar> {
    set e | e in es :: Text(e.key)
  }

  /** Reads the `items` key; a list is decoded item by item, a string or a
      dictionary would be iterated by character or by key. */
  function DecodeSet(es: seq<Entry>): Result<Value, DecodeError>
    decreases es, 0
  {
    if es == [] then Err(MissingKey)
    else if es[0].key != "items" then DecodeSet(es[1..])
    else
      match es[0].value
      case List(vs) =>
        (match DecodeItems(vs)
         case Ok(ss) => Ok(Set(ss))
         case Err(e) => Err(e))
      case Atom(Text(t)) => Ok(Set(CharacterSet(t)))
      case Dict(ds) => Ok(Set(KeySet(ds)))
      case _ => Err(NotIterable)
  }

  // ---- The tags, as texts ----

  /** The tag, the key and the text that a typed scalar is written with. */
  function Written(s: Scalar): Option<(string, string, string)> {
    match s
    case Decimal(repr) => Some(("Decimal", "repr", repr))
    case Uuid(repr) => Some(("UUID", "repr", repr))
    case DateTime(repr) => Some(("datetime", "repr", repr))
    case Bytes(b64) => Some(("bytes", "b64", b64))
    case _ => None
  }

  /** Encoding a typed scalar gives a dictionary of its tag and its text; other scalars stay. */
  lemma EncodedScalarSays(s: Scalar)
    ensures
      match Written(s)
      case None => Encode(Atom(s)) == Atom(s)
      case Some((tag, key, text)) =>
        && Encode(Atom(s)).Dict? && |Encode(Atom(s)).entries| == 2
        && Lookup(Encode(Atom(s)).entries, "__pytype__") == Some(Atom(Text(tag)))
        && Lookup(Encode(Atom(s)).entries, key) == Some(Atom(Text(text)))
  {
    if Written(s).Some? {
      var (tag, key, text) := Written(s).value;
      LookupTagged(tag, key, Atom(Text(text)));
    }
  }

  /** A dictionary with a scalar's tag and text decodes to that scalar, whatever else it holds and in
      whatever order; without the text it is an error. */
  lemma TaggedTextDecodes(es: seq<Entry>, s: Scalar)
    requires Written(s).Some? && Lookup(es, "__pytype__") == Some(Atom(Text(Written(s).value.0)))
    ensures Lookup(es, Written(s).value.1) == Some(Atom(Text(Written(s).value.2))) ==> Decode(Dict(es)) == Ok(Atom(s))
    ensures Lookup(es, Written(s).value.1).None? ==> Decode(Dict(es)) == Err(MissingKey)
    ensures
      match Lookup(es, Written(s).value.1)
      case Some(Atom(Text(_))) => true
      case Some(_) => Decode(Dict(es)) == Err(NotText)
      case None => true
  {
  }

  /** A set becomes the tag "set" with exactly its elements, encoded, under "items". */
  lemma EncodedSetSays(items: set<Scalar>) returns (listed: seq<Scalar>)
    ensures forall x :: x in listed <==> x in items
    ensures
      var e := Encode(Set(items));
      && e.Dict? && |e.entries| == 2
      && Lookup(e.entries, "__pytype__") == Some(Atom(Text("set")))
      && Lookup(e.entries, "items") == Some(List(EncodeScalars(listed)))
  {
    listed := Listing(items);
    LookupTagged("set", "items", List(EncodeScalars(listed)));
  }

  /** Lists pass through unchanged both ways; what they hold is not looked at. */
  lemma ListsPassThrough(vs: seq<Value>)
    ensures Encode(List(vs)) == List(vs) && Decode(List(vs)) == Ok(List(vs))
  {
  }

  /** A dictionary keeps its keys in order, with each value encoded. */
  lemma {:induction false} EncodedDictSays(es: seq<Entry>)
    ensures Encode(Dict(es)).Dict? && |Encode(Dict(es)).entries| == |es|
    ensures forall i | 0 <= i < |es| :: Encode(Dict(es)).entries[i] == Entry(es[i].key, Encode(es[i].value))
  {
    if es != [] {
      EncodedDictSays(es[1..]);
      assert forall i | 0 < i < |es| :: es[i] == es[1..][i - 1];
      assert forall i | 0 < i < |es| :: EncodeEntries(es)[i] == EncodeEntries(es[1..])[i - 1];
    }
  }

  /** The items of a set decode exactly when each of them does, to a scalar; the set is what they give. */
  lemma {:induction false} ItemsDecodeExactly(vs: seq<Value>)
    ensures DecodeItems(vs).Ok? <==> forall i | 0 <= i < |vs| :: Decode(vs[i]).Ok? && Decode(vs[i]).value.Atom?
    ensures
      DecodeItems(vs).Ok? ==>
      forall x :: x in DecodeItems(vs).value <==> exists i :: 0 <= i < |vs| && Decode(vs[i]) == Ok(Atom(x))
  {
    if vs != [] {
      ItemsDecodeExactly(vs[1..]);
      assert forall i | 0 < i < |vs| :: vs[i] == vs[1..][i - 1];
      if DecodeItems(vs).Ok? {
        forall x
          ensures x in DecodeItems(vs).value <==> exists i :: 0 <= i < |vs| && Decode(vs[i]) == Ok(Atom(x))
        {
          if i :| 0 <= i < |vs[1..]| && Decode(vs[1..][i]) == Ok(Atom(x)) {
            assert Decode(vs[i + 1]) == Ok(Atom(x));
          }
          if i :| 0 <= i < |vs| && Decode(vs[i]) == Ok(Atom(x)) {
            assert i > 0 ==> Decode(vs[1..][i - 1]) == Ok(Atom(x));
          }
        }
      }
    }
  }

  /** The elements that the value under "items" is iterated into. */
  ghost predicate IteratesInto(v: Value, items: set<Scalar>) {
    match v
    case List(vs) => DecodeItems(vs) == Ok(items)
    case Atom(Text(t)) => forall x :: x in items <==> exists i :: 0 <= i < |t| && x == Text([t[i]])
    case Dict(ds) => forall x :: x in items <==> exists i :: 0 <= i < |ds| && x == Text(ds[i].key)
    case _ => false
  }

  /** A "set" tag decodes to a set of what its items iterate into: a list's members decoded, a
      text's characters, a dictionary's keys. */
  lemma {:induction false} SetTagDecodes(es: seq<Entry>, items: set<Scalar>)
    ensures
      DecodeSet(es) == Ok(Set(items)) <==>
      Lookup(es, "items").Some? && IteratesInto(Lookup(es, "items").value, items)
    ensures Lookup(es, "items").None? ==> DecodeSet(es) == Err(MissingKey)
    ensures Lookup(es, "__pytype__") == Some(Atom(Text("set"))) ==> Decode(Dict(es)) == DecodeSet(es)
  {
    if es != [] && es[0].key != "items" {
      SetTagDecodes(es[1..], items);
    } else if es != [] {
      match es[0].value
      case Atom(Text(t)) =>
        CharactersExactly(t);
        if IteratesInto(es[0].value, items) {
          assert items == CharacterSet(t);
        }
      case Dict(ds) =>
        KeysExactly(ds);
        if IteratesInto(es[0].value, items) {
          assert items == KeySet(ds);
        }
      case _ =>
    }
  }

  lemma CharactersExactly(t: string)
    ensures forall x :: x in CharacterSet(t) <==> exists i :: 0 <= i < |t| && x == Text([t[i]])
  {
    forall i | 0 <= i < |t|
      ensures Text([t[i]]) in CharacterSet(t)
    {
      assert t[i] in t;
    }
  }

  lemma KeysExactly(ds: seq<Entry>)
    ensures forall x :: x in KeySet(ds) <==> exists i :: 0 <= i < |ds| && x == Text(ds[i].key)
  {
    forall i | 0 <= i < |ds|
      ensures Text(ds[i].key) in KeySet(ds)
    {
      assert ds[i] in ds;
    }
  }

  // ---- Round trip ----

  predicate IsTag(v: Option<Value>) {
    v.Some? && v.value.Atom? && v.value.scalar.Text? && v.value.scalar.text in TAGS
  }

  /** No dictionary that the codec descends into carries a tag of its own. */
  predicate Untagged(v: Value)
    decreases v, 1
  {
    v.Dict? ==> !IsTag(Lookup(v.entries, TAG)) && EntriesUntagged(v.entries)
  }

  predicate EntriesUntagged(es: seq<Entry>)
    decreases es, 0
  {
    es == [] || (Untagged(es[0].value) && EntriesUntagged(es[1..]))
  }

  lemma LookupTagged(tag: string, key: string, v: Value)
    requires key != TAG
    ensures Lookup([Entry(TAG, Atom(Text(tag))), Entry(key, v)], TAG) == Some(Atom(Text(tag)))
    ensures Lookup([Entry(TAG, Atom(Text(tag))), Entry(key, v)], key) == Some(v)
  {
    assert [Entry(TAG, Atom(Text(tag))), Entry(key, v)][1..] == [Entry(key, v)];
  }

  lemma ScalarRoundTrip(s: Scalar)
    ensures Decode(EncodeScalar(s)) == Ok(Atom(s))
  {
    match s
    case Decimal(repr) => LookupTagged("Decimal", "repr", Atom(Text(repr)));
    case Uuid(repr) => LookupTagged("UUID", "repr", Atom(Text(repr)));
    case DateTime(repr) => LookupTagged("datetime", "repr", Atom(Text(repr)));
    case Bytes(b64) => LookupTagged("bytes", "b64", Atom(Text(b64)));
    case _ =>
  }

  lemma {:induction false} ItemsRoundTrip(ss: seq<Scalar>)
    ensures DecodeItems(EncodeScalars(ss)) == Ok(Members(ss))
  {
    if ss == [] {
      assert Members(ss) == {};
    } else {
      ScalarRoundTrip(ss[0]);
      ItemsRoundTrip(ss[1..]);
      var vs := EncodeScalars(ss);
      assert vs[0] == EncodeScalar(ss[0]) && vs[1..] == EncodeScalars(ss[1..]);
      assert Decode(vs[0]) == Ok(Atom(ss[0]));
      assert DecodeItems(vs) == Ok({ss[0]} + Members(ss[1..]));
      assert Members(ss) == {ss[0]} + Members(ss[1..]);
    }
  }

  lemma SetRoundTrip(items: set<Scalar>)
    ensures Decode(Encode(Set(items))) == Ok(Set(items))
  {
    var listed := List(EncodeScalars(Listing(items)));
    LookupTagged("set", "items", listed);
    ItemsRoundTrip(Listing(items));
    var es := [Entry(TAG, Atom(Text("set"))), Entry("items", listed)];
    assert es[1..] == [Entry("items", listed)];
    assert DecodeSet(es[1..]) == Ok(Set(Members(Listing(items))));
    assert |es[0].key| != |"items"|;
    assert DecodeSet(es) == DecodeSet(es[1..]);
    assert Decode(Dict(es)) == DecodeSet(es);
    assert Members(Listing(items)) == items;
  }

  lemma {:induction false} EncodedTag(es: seq<Entry>)
    ensures IsTag(Lookup(EncodeEntries(es), TAG)) == IsTag(Lookup(es, TAG))
  {
    if es != [] && es[0].key != TAG {
      EncodedTag(es[1..]);
      assert EncodeEntries(es)[1..] == EncodeEntries(es[1..]);
    }
  }

  /** A dictionary with a tag never decodes to a dictionary. */
  lemma TaggedDecodesElsewhere(es: seq<Entry>)
    requires IsTag(Lookup(es, TAG))
    ensures Decode(Dict(es)).Ok? ==> !Decode(Dict(es)).value.Dict?
  {
    SetDecodesToSet(es);
  }

  lemma {:induction false} SetDecodesToSet(es: seq<Entry>)
    ensures DecodeSet(es).Ok? ==> DecodeSet(es).value.Set?
  {
    if es != [] && es[0].key != "items" {
      SetDecodesToSet(es[1..]);
    }
  }

  /** Decoding inverts encoding exactly on values none of whose dictionaries carries a tag. */
  lemma {:induction false} RoundTripIff(v: Value)
    ensures Decode(Encode(v)) == Ok(v) <==> Untagged(v)
    decreases v, 1
  {
    match v
    case Atom(s) => ScalarRoundTrip(s);
    case Set(items) => SetRoundTrip(items);
    case List(_) =>
    case Dict(es) =>
      EncodedTag(es);
      if IsTag(Lookup(es, TAG)) {
        TaggedDecodesElsewhere(EncodeEntries(es));
      } else {
        EntriesRoundTripIff(es);
      }
  }

  lemma {:induction false} EntriesRoundTripIff(es: seq<Entry>)
    ensures DecodeEntries(EncodeEntries(es)) == Ok(es) <==> EntriesUntagged(es)
    decreases es, 0
  {
    if es != [] {
      RoundTripIff(es[0].value);
      EntriesRoundTripIff(es[1..]);
      DecodeCons(es[0].key, Encode(es[0].value), EncodeEntries(es[1..]));
      assert es == [Entry(es[0].key, es[0].value)] + es[1..];
      var d, ds := Decode(Encode(es[0].value)), DecodeEntries(EncodeEntries(es[1..]));
      if d.Ok? && ds.Ok? {
        SameCons(Entry(es[0].key, d.value), ds.value, es[0], es[1..]);
      }
    }
  }

  lemma DecodeCons(key: string, v: Value, rest: seq<Entry>)
    ensures
      var d, ds := Decode(v), DecodeEntries(rest);
      DecodeEntries([Entry(key, v)] + rest) ==
      if d.Err? then Err(d.error) else if ds.Err? then Err(ds.error) else Ok([Entry(key, d.value)] + ds.value)
  {
    assert ([Entry(key, v)] + rest)[1..] == rest;
  }

  lemma SameCons(e: Entry, es: seq<Entry>, f: Entry, fs: seq<Entry>)
    ensures [e] + es == [f] + fs <==> e == f && es == fs
  {
    assert ([e] + es)[1..] == es && ([f] + fs)[1..] == fs;
    assert ([e] + es)[0] == e && ([f] + fs)[0] == f;
  }

  /** A plain dictionary that carries a tag comes back as the scalar the tag names. */
  lemma TaggedDictionaryIsLost()
    ensures
      var v := Dict([Entry(TAG, Atom(Text("Decimal"))), Entry("repr", Atom(Text("1.50")))]);
      Encode(v) == v && Decode(Encode(v)) == Ok(Atom(Decimal("1.50")))
  {
    var e0, e1 := Entry(TAG, Atom(Text("Decimal"))), Entry("repr", Atom(Text("1.50")));
    var es := [e0, e1];
    LookupTagged("Decimal", "repr", Atom(Text("1.50")));
    assert es[1..] == [e1] && es[1..][1..] == [];
    assert EncodeEntries([e1]) == [e1];
    assert EncodeEntries(es) == [e0] + [e1] == es;
  }

  /** Hence encoding is injective there. */
  lemma EncodeIsInjective(v: Value, w: Value)
    requires Untagged(v) && Untagged(w) && Encode(v) == Encode(w)
    ensures v == w
  {
    RoundTripIff(v);
    RoundTripIff(w);
  }
}
