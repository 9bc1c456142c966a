/** What the strict struct decoder makes of an object: which members it takes, and what it keeps. */
module Structs {
  import opened Base
  import opened Json
  import opened Wire

  /** The member goes to a field and is not null in a plain string field. */
  predicate Kept(lib: Library, schema: Schema, m: Member) {
    && FieldFor(lib, schema, m.name).Some?
    && !(schema[FieldFor(lib, schema, m.name).value] == Text && m.value == Lit(Null))
  }

  /** The member is kept under this field name. */
  predicate KeptAs(lib: Library, schema: Schema, m: Member, name: string) {
    Kept(lib, schema, m) && FieldFor(lib, schema, m.name) == Some(name)
  }

  /** The fields a struct decoder is left with: later members overwrite earlier ones. */
  function KeptFields(lib: Library, schema: Schema, ms: seq<Member>): map<string, Value> {
    if ms == [] then map[]
    else if Kept(lib, schema, ms[0]) then
      map[FieldFor(lib, schema, ms[0].name).value := ms[0].value] + KeptFields(lib, schema, ms[1..])
    else KeptFields(lib, schema, ms[1..])
  }

  /** Every member goes to some field, exactly or by case, and its value fits there. */
  ghost predicate AllStorable(lib: Library, schema: Schema, ms: seq<Member>) {
    forall i :: 0 <= i < |ms| ==>
      FieldFor(lib, schema, ms[i].name).Some?
      && Storable(schema[FieldFor(lib, schema, ms[i].name).value], ms[i].value)
  }

  /** The last member kept under the name has this value. */
  ghost predicate Gives(lib: Library, schema: Schema, ms: seq<Member>, name: string, v: Value) {
    exists i :: 0 <= i < |ms| && LastUnder(lib, schema, ms, name, i) && ms[i].value == v
  }

  ghost predicate LastUnder(lib: Library, schema: Schema, ms: seq<Member>, name: string, i: nat)
    requires i < |ms|
  {
    KeptAs(lib, schema, ms[i], name) && forall j :: i < j < |ms| ==> !KeptAs(lib, schema, ms[j], name)
  }

  /** No member is kept under the name. */
  ghost predicate Omits(lib: Library, schema: Schema, ms: seq<Member>, name: string) {
    forall i :: 0 <= i < |ms| ==> !KeptAs(lib, schema, ms[i], name)
  }

  lemma UpdateThenMerge(m: map<string, Value>, name: string, v: Value, n: map<string, Value>)
    ensures m[name := v] + n == m + (map[name := v] + n)
  {
  }

  lemma {:induction false} StoreAccepts(lib: Library, schema: Schema, ms: seq<Member>, into: map<string, Value>)
    requires Typed(schema, into)
    ensures Store(lib, schema, ms, into)
         == if AllStorable(lib, schema, ms) then Ok(into + KeptFields(lib, schema, ms)) else Err(Fail(Invalid))
    decreases |ms|
  {
    if ms == [] {
      assert into + KeptFields(lib, schema, ms) == into;
    } else {
      var m, tail := ms[0], ms[1..];
      assert forall i :: 0 <= i < |tail| ==> tail[i] == ms[i + 1];
      assert AllStorable(lib, schema, ms) <==>
               FieldFor(lib, schema, m.name).Some?
               && Storable(schema[FieldFor(lib, schema, m.name).value], m.value) && AllStorable(lib, schema, tail) by {
        forall i | 0 < i < |ms| ensures ms[i] == tail[i - 1] {}
      }
      if FieldFor(lib, schema, m.name).Some? && Storable(schema[FieldFor(lib, schema, m.name).value], m.value) {
        var f := FieldFor(lib, schema, m.name).value;
        if Kept(lib, schema, m) {
          StoreAccepts(lib, schema, tail, into[f := m.value]);
          UpdateThenMerge(into, f, m.value, KeptFields(lib, schema, tail));
        } else {
          StoreAccepts(lib, schema, tail, into);
        }
      }
    }
  }

  /** A field is left with a value exactly when the last member kept under it has that value. */
  lemma {:induction false} KeptMember(lib: Library, schema: Schema, ms: seq<Member>, name: string)
    ensures forall v :: Field(KeptFields(lib, schema, ms), name) == Some(v) <==> Gives(lib, schema, ms, name, v)
    ensures Field(KeptFields(lib, schema, ms), name) == None <==> Omits(lib, schema, ms, name)
    decreases |ms|
  {
    if ms != [] {
      hide Kept, FieldFor;
      var tail := ms[1..];
      KeptMember(lib, schema, tail, name);
      TailUnder(lib, schema, ms, name);
      if Omits(lib, schema, tail, name) {
        HeadDecides(lib, schema, ms, name);
      } else {
        TailDecides(lib, schema, ms, name);
      }
    }
  }

  lemma TailUnder(lib: Library, schema: Schema, ms: seq<Member>, name: string)
    requires ms != []
    ensures forall i :: 0 < i < |ms| ==> ms[i] == ms[1..][i - 1]
    ensures forall i :: 0 < i < |ms| ==>
              (LastUnder(lib, schema, ms, name, i) <==> LastUnder(lib, schema, ms[1..], name, i - 1))
    ensures Omits(lib, schema, ms, name) <==> !KeptAs(lib, schema, ms[0], name) && Omits(lib, schema, ms[1..], name)
  {
    hide KeptAs;
    var tail := ms[1..];
    assert forall i :: 0 <= i < |tail| ==> tail[i] == ms[i + 1];
    forall i | 0 < i < |ms| ensures ms[i] == tail[i - 1] {}
    forall i | 0 < i < |ms|
      ensures LastUnder(lib, schema, ms, name, i) <==> LastUnder(lib, schema, tail, name, i - 1) {
      if LastUnder(lib, schema, tail, name, i - 1) {
        forall j | i < j < |ms| ensures !KeptAs(lib, schema, ms[j], name) {
          assert ms[j] == tail[j - 1];
        }
      }
    }
  }

  lemma HeadDecides(lib: Library, schema: Schema, ms: seq<Member>, name: string)
    requires ms != [] && Omits(lib, schema, ms[1..], name)
    requires Field(KeptFields(lib, schema, ms[1..]), name) == None
    ensures forall v :: Field(KeptFields(lib, schema, ms), name) == Some(v) <==> Gives(lib, schema, ms, name, v)
    ensures Field(KeptFields(lib, schema, ms), name) == None <==> Omits(lib, schema, ms, name)
  {
    TailUnder(lib, schema, ms, name);
    if KeptAs(lib, schema, ms[0], name) {
      assert LastUnder(lib, schema, ms, name, 0) by {
        forall j | 0 < j < |ms| ensures !KeptAs(lib, schema, ms[j], name) {
          assert ms[j] == ms[1..][j - 1];
        }
      }
    }
  }

  lemma TailDecides(lib: Library, schema: Schema, ms: seq<Member>, name: string)
    requires ms != [] && !Omits(lib, schema, ms[1..], name)
    requires Field(KeptFields(lib, schema, ms[1..]), name).Some?
    requires Gives(lib, schema, ms[1..], name, Field(KeptFields(lib, schema, ms[1..]), name).value)
    ensures forall v :: Field(KeptFields(lib, schema, ms), name) == Some(v) <==> Gives(lib, schema, ms, name, v)
    ensures Field(KeptFields(lib, schema, ms), name).Some? && !Omits(lib, schema, ms, name)
  {
    TailUnder(lib, schema, ms, name);
    var v := Field(KeptFields(lib, schema, ms[1..]), name).value;
    var i :| 0 <= i < |ms[1..]| && LastUnder(lib, schema, ms[1..], name, i) && ms[1..][i].value == v;
    assert LastUnder(lib, schema, ms, name, i + 1);
    forall u | Gives(lib, schema, ms, name, u) ensures u == v {
      var j :| 0 <= j < |ms| && LastUnder(lib, schema, ms, name, j) && ms[j].value == u;
      assert KeptAs(lib, schema, ms[j], name) && KeptAs(lib, schema, ms[i + 1], name);
    }
  }

  /** decodeStrict into a struct, of any object. */
  lemma StructAccepts(lib: Library, schema: Schema, ms: seq<Member>)
    ensures DecodeStruct(lib, schema, Obj(ms))
         == if AllStorable(lib, schema, ms) then Ok(KeptFields(lib, schema, ms)) else Err(Fail(Invalid))
    ensures AllStorable(lib, schema, ms) ==>
      forall name, v :: Field(KeptFields(lib, schema, ms), name) == Some(v) <==> Gives(lib, schema, ms, name, v)
    ensures AllStorable(lib, schema, ms) ==>
      forall name :: Field(KeptFields(lib, schema, ms), name) == None <==> Omits(lib, schema, ms, name)
  {
    StoreAccepts(lib, schema, ms, map[]);
    assert map[] + KeptFields(lib, schema, ms) == KeptFields(lib, schema, ms);
    forall name
      ensures forall v :: Field(KeptFields(lib, schema, ms), name) == Some(v) <==> Gives(lib, schema, ms, name, v)
      ensures Field(KeptFields(lib, schema, ms), name) == None <==> Omits(lib, schema, ms, name) {
      KeptMember(lib, schema, ms, name);
    }
  }

  // ---------------------------------------------------------------- objects without case variants

  ghost predicate DistinctNames(ms: seq<Member>) {
    forall i, j :: 0 <= i < j < |ms| ==> ms[i].name != ms[j].name
  }

  /** No member name is a mere case variant of a field name. */
  ghost predicate ExactFor(lib: Library, schema: Schema, ms: seq<Member>) {
    forall i :: 0 <= i < |ms| ==> ms[i].name in schema || lib.folded(schema.Keys, ms[i].name).None?
  }

  /** Then a field is given exactly by the one member that has its name. */
  lemma ExactGives(lib: Library, schema: Schema, ms: seq<Member>, name: string, v: Value)
    requires DistinctNames(ms) && ExactFor(lib, schema, ms)
    ensures Gives(lib, schema, ms, name, v) <==>
              Member(name, v) in ms && Kept(lib, schema, Member(name, v)) && name in schema
  {
    if Member(name, v) in ms && Kept(lib, schema, Member(name, v)) && name in schema {
      var i :| 0 <= i < |ms| && ms[i] == Member(name, v);
      assert LastUnder(lib, schema, ms, name, i);
    }
    if Gives(lib, schema, ms, name, v) {
      var i :| 0 <= i < |ms| && LastUnder(lib, schema, ms, name, i) && ms[i].value == v;
      assert ms[i] == Member(name, v);
    }
  }

  /** The same members, in any order. */
  ghost predicate SameMembers(ms: seq<Member>, expected: seq<Member>) {
    forall m :: m in ms <==> m in expected
  }

  /** Every expected member gives its field, and whatever else fits gives none of the other fields. */
  ghost predicate GivesAll(lib: Library, schema: Schema, ms: seq<Member>, expected: seq<Member>) {
    && AllStorable(lib, schema, ms)
    && (forall m :: m in expected ==> Gives(lib, schema, ms, m.name, m.value))
    && (forall name :: name in schema && (forall m :: m in expected ==> m.name != name) ==>
          Omits(lib, schema, ms, name))
  }

  lemma NamedMember(ms: seq<Member>, m: Member, x: Member)
    requires DistinctNames(ms) && m in ms && x in ms && m.name == x.name
    ensures m == x
  {
  }

  /** The members that a struct is expected to be written with: each fits its field, and every string field has one. */
  ghost predicate Expected(schema: Schema, expected: seq<Member>) {
    && (forall m :: m in expected ==> m.name in schema && Storable(schema[m.name], m.value)
                                      && (schema[m.name] == Text ==> m.value != Lit(Null)))
    && (forall name :: name in schema && schema[name] == Text ==> exists m :: m in expected && m.name == name)
  }

  /**
   * An object with distinct names, none a case variant, gives the expected fields exactly when it has
   * the expected members and no others, in some order.
   */
  lemma ExactShape(lib: Library, schema: Schema, ms: seq<Member>, expected: seq<Member>)
    requires DistinctNames(ms) && ExactFor(lib, schema, ms) && Expected(schema, expected)
    ensures GivesAll(lib, schema, ms, expected) <==> SameMembers(ms, expected)
  {
    forall m: Member
      ensures Gives(lib, schema, ms, m.name, m.value) <==> m in ms && Kept(lib, schema, m) && m.name in schema {
      ExactGives(lib, schema, ms, m.name, m.value);
    }
    if GivesAll(lib, schema, ms, expected) {
      forall m | m in ms ensures m in expected {
        var i :| 0 <= i < |ms| && ms[i] == m;
        assert FieldFor(lib, schema, ms[i].name) == Some(m.name);
        if x :| x in expected && x.name == m.name {
          NamedMember(ms, x, m);
        }
      }
    }
    if SameMembers(ms, expected) {
      forall i | 0 <= i < |ms|
        ensures ms[i].name in schema && Storable(schema[ms[i].name], ms[i].value) {
        assert ms[i] in ms;
      }
      forall name, i | name in schema && (forall m :: m in expected ==> m.name != name) && 0 <= i < |ms|
        ensures !KeptAs(lib, schema, ms[i], name) {
        assert ms[i] in ms;
      }
    }
  }
}
