/**
 * The cases the package's tests exercise, stated over any struct type laid
 * out as the test's type is (same field kinds, tags and order) and any
 * values, plus consequences of the code that the tests do not reach: the
 * edge tag spellings (omitempty alone, a second token that is not omitempty,
 * any three tokens, any non-boolean first token, any valid one with
 * omitempty), the walk ending at the first struct field, and an empty
 * non-nil slice counting as non-empty for omitempty.
 */
module Scenarios {
  import opened Wrappers
  import opened Reflect
  import opened TagParse = Tags
  import opened Overwrite
  import opened OverwriteProperties


  /** A tag value with exactly one separator is split there. */
  lemma TwoTokens(a: string, b: string)
    requires Separator !in a && Separator !in b
    ensures Split(a + [Separator] + b, Separator) == [a, b]
  {
    SplitJoin([a, b], Separator);
  }

  /** A valid first token followed by `,omitempty`. */
  lemma WithOmitempty(a: string)
    requires ValidFirst(a)
    ensures NewTags(a + [Separator] + OmitemptyValue) ==
              Ok(Tags(a != "" && ParseBool(a) == Some(true), true))
  {
    RenderParses(a, true);
  }

  /** A first token ParseBool refuses, followed by `,omitempty`. */
  lemma NotABoolRejected(a: string)
    requires Separator !in a && a != "" && ParseBool(a).None?
    ensures NewTags(a + [Separator] + OmitemptyValue) == Err(NotABool)
  {
    TwoTokens(a, OmitemptyValue);
  }

  /** Three tokens are refused whatever they say. */
  lemma ThreeTokensRejected(a: string, b: string, c: string)
    requires Separator !in a && Separator !in b && Separator !in c
    ensures NewTags(a + [Separator] + b + [Separator] + c) == Err(WrongNumberOfTags)
  {
    SplitJoin([a, b, c], Separator);
    assert Join([b, c], Separator) == b + [Separator] + c;
    assert a + [Separator] + b + [Separator] + c == a + [Separator] + (b + [Separator] + c);
  }

  // The tag values of tag_test.go, and two edge spellings. Each is first
  // written as a concatenation, so that the parser is never unfolded on the
  // literal itself.

  lemma Spellings()
    ensures "true" + [Separator] + OmitemptyValue == "true,omitempty"
    ensures "" + [Separator] + OmitemptyValue == ",omitempty"
    ensures "gurka" + [Separator] + OmitemptyValue == "gurka,omitempty"
    ensures "true" + [Separator] + "false" + [Separator] + OmitemptyValue == "true,false,omitempty"
    ensures "true" + [Separator] + "false" == "true,false"
  {
  }

  lemma TagTrueOmitempty()
    ensures NewTags("true,omitempty") == Ok(Tags(true, true))
  {
    Spellings();
    assert ParseBool("true") == Some(true);
    WithOmitempty("true");
  }

  lemma TagTrue()
    ensures NewTags("true") == Ok(Tags(true, false))
  {
    RenderParses("true", false);
  }

  lemma TagFalse()
    ensures NewTags("false") == Ok(Tags(false, false))
  {
    RenderParses("false", false);
  }

  /** No tag at all: StructTag.Get gives "", which neither copies nor fails. */
  lemma TagAbsent()
    ensures NewTags("") == Ok(Tags(false, false))
  {
  }

  /** An empty first token is accepted, so omitempty alone is a valid tag that copies nothing. */
  lemma TagOnlyOmitempty()
    ensures NewTags(",omitempty") == Ok(Tags(false, true))
  {
    Spellings();
    WithOmitempty("");
  }

  lemma TagNotABool()
    ensures NewTags("gurka,omitempty") == Err(NotABool)
  {
    Spellings();
    assert ParseBool("gurka").None?;
    NotABoolRejected("gurka");
  }

  lemma TagThreeTokens()
    ensures NewTags("true,false,omitempty") == Err(WrongNumberOfTags)
  {
    Spellings();
    ThreeTokensRejected("true", "false", OmitemptyValue);
  }

  lemma TagSecondNotOmitempty()
    ensures NewTags("true,false") == Err(SecondValueNotOmitempty)
  {
    Spellings();
    TwoTokens("true", "false");
  }

  // Equal sequences, field by field; kept apart so that no quantifier of the
  // caller is in scope when the element index is left open.

  lemma OneEqual(xs: seq<Value>, ys: seq<Value>)
    requires |xs| == |ys| == 1 && xs[0] == ys[0]
    ensures xs == ys
  {
  }

  lemma TwoEqual(xs: seq<Value>, ys: seq<Value>)
    requires |xs| == |ys| == 2 && xs[0] == ys[0] && xs[1] == ys[1]
    ensures xs == ys
  {
  }

  lemma ThreeEqual(xs: seq<Value>, ys: seq<Value>)
    requires |xs| == |ys| == 3 && xs[0] == ys[0] && xs[1] == ys[1] && xs[2] == ys[2]
    ensures xs == ys
  {
  }

  lemma FiveEqual(xs: seq<Value>, ys: seq<Value>)
    requires |xs| == |ys| == 5 && xs[0] == ys[0] && xs[1] == ys[1] && xs[2] == ys[2]
    requires xs[3] == ys[3] && xs[4] == ys[4]
    ensures xs == ys
  {
  }

  /** The walk over TestTypes' `struct{ N int }`: its one field is untagged, so nothing changes. */
  lemma UntaggedIntWalk(t: Type, d: Value, v: Value)
    requires t.kind.Struct? && |t.kind.fields| == 1
    requires t.kind.fields[0].typ.kind == Reflect.Int && t.kind.fields[0].exported
    requires t.kind.fields[0].tag == ""
    requires WellFormed(t) && Conforms(d, t) && Conforms(v, t)
    ensures Apply(t, d, v) == (d, None)
  {
    TagAbsent();
    ExportedFieldPasses(t, 0);
    assert Stop(t, 1) == 1;
    WalkCompletes(t, d, v);
    OneEqual(Apply(t, d, v).0.fields, d.fields);
  }

  /**
   * TestTypes, with `t` the test's `struct{ N int }` and `str` the type
   * string: each of the first five calls fails its own argument check, and
   * the last, `Do(&T{}, T{})`, passes them and returns nil, leaving the
   * destination as it was.
   */
  lemma InputChecks(c: Cell, str: Type, t: Type, d: Value, v: Value)
    requires str == Type("string", Reflect.String)
    requires t.name == "overwrite.T" && t.kind.Struct? && |t.kind.fields| == 1
    requires t.kind.fields[0].name == "N" && t.kind.fields[0].typ.kind == Reflect.Int
    requires t.kind.fields[0].exported && t.kind.fields[0].tag == ""
    requires WellFormed(t) && Conforms(d, t) && Conforms(v, t)
    ensures CheckInput(Nil, Plain(str, StringV(""))) == Some(DstNil)
    ensures CheckInput(Ptr(c, [], str), Nil) == Some(SrcNil)
    ensures CheckInput(Plain(t, v), Ptr(c, [], t)) == Some(DstNotPtr)
    ensures CheckInput(Ptr(c, [], t), Ptr(c, [], t)) == Some(SrcNotStruct)
    ensures CheckInput(Ptr(c, [], str), Plain(t, v)) == Some(NotSameType)
    ensures CheckInput(Ptr(c, [], t), Plain(t, v)) == None
    ensures Apply(t, d, v) == (d, None)
  {
    UntaggedIntWalk(t, d, v);
  }

  // Three facts about a single field, by its parsed tag.

  /** A supported field tagged "true" receives the source value. */
  lemma LeafCopied(f: Field, dk: Value, sk: Value)
    requires CheckSupportedKind(f.typ.kind) && NewTags(f.tag) == Ok(Tags(true, false))
    ensures LeafValue(f, dk, sk) == sk
  {
  }

  /** A field whose tag parses to overwrite false keeps its value. */
  lemma LeafKept(f: Field, dk: Value, sk: Value, omitempty: bool)
    requires NewTags(f.tag) == Ok(Tags(false, omitempty))
    ensures LeafValue(f, dk, sk) == dk
  {
  }

  /** A string field tagged "true,omitempty" receives the source value unless it is "". */
  lemma LeafOmitemptyString(f: Field, dk: Value, sk: Value)
    requires CheckSupportedKind(f.typ.kind) && NewTags(f.tag) == Ok(Tags(true, true)) && sk.StringV?
    ensures LeafValue(f, dk, sk) == if sk == StringV("") then dk else sk
  {
  }

  /**
   * The field kinds of the struct of TestSimpleTypes, one field per distinct
   * tag: N int, G string, J string, H string, L bool, all exported.
   */
  predicate SimpleKinds(t: Type)
  {
    && t.kind.Struct?
    && var fs := t.kind.fields;
    && |fs| == 5 && (forall k :: 0 <= k < 5 ==> fs[k].exported)
    && fs[0].typ.kind == Reflect.Int
    && fs[1].typ.kind == Reflect.String
    && fs[2].typ.kind == Reflect.String
    && fs[3].typ.kind == Reflect.String
    && fs[4].typ.kind == Reflect.Bool
  }

  /** Its tags: N `true`, G `false`, J none, H `true,omitempty`, L `true`. */
  predicate SimpleTagged(t: Type)
    requires SimpleKinds(t)
  {
    var fs := t.kind.fields;
    fs[0].tag == "true" && fs[1].tag == "false" && fs[2].tag == ""
    && fs[3].tag == "true,omitempty" && fs[4].tag == "true"
  }

  /** The same tags, parsed. */
  predicate SimpleParsed(t: Type)
    requires SimpleKinds(t)
  {
    var fs := t.kind.fields;
    && NewTags(fs[0].tag) == Ok(Tags(true, false))
    && NewTags(fs[1].tag) == Ok(Tags(false, false))
    && NewTags(fs[2].tag) == Ok(Tags(false, false))
    && NewTags(fs[3].tag) == Ok(Tags(true, true))
    && NewTags(fs[4].tag) == Ok(Tags(true, false))
  }

  lemma SimpleTagsParse(t: Type)
    requires SimpleKinds(t) && SimpleTagged(t)
    ensures SimpleParsed(t)
  {
    TagTrue();
    TagFalse();
    TagAbsent();
    TagTrueOmitempty();
  }

  /** No field of that struct makes Do fail. */
  lemma SimpleNoFault(t: Type)
    requires SimpleKinds(t) && SimpleParsed(t) && WellFormed(t)
    ensures FieldFault(t, 0).None? && FieldFault(t, 1).None? && FieldFault(t, 2).None?
    ensures FieldFault(t, 3).None? && FieldFault(t, 4).None?
  {
    ExportedFieldPasses(t, 0);
    ExportedFieldPasses(t, 1);
    ExportedFieldPasses(t, 2);
    ExportedFieldPasses(t, 3);
    ExportedFieldPasses(t, 4);
  }

  /** Nor does any make it recurse, so the walk visits all five. */
  lemma SimpleNoStop(t: Type)
    requires SimpleKinds(t)
    requires FieldFault(t, 0).None? && FieldFault(t, 1).None? && FieldFault(t, 2).None?
    requires FieldFault(t, 3).None? && FieldFault(t, 4).None?
    ensures Stop(t, 0) == 5
  {
    assert Stop(t, 4) == 5;
    assert Stop(t, 3) == 5;
    assert Stop(t, 2) == 5;
    assert Stop(t, 1) == 5;
  }

  lemma SimpleShapes(t: Type, d: Value, s: Value)
    requires SimpleKinds(t) && Conforms(d, t) && Conforms(s, t)
    ensures d.StructV? && s.StructV? && |d.fields| == |s.fields| == 5 && s.fields[3].StringV?
  {
    assert Conforms(s.fields[3], t.kind.fields[3].typ);
  }

  lemma SimpleLeaves(t: Type, d: Value, s: Value)
    requires SimpleKinds(t) && SimpleParsed(t)
    requires d.StructV? && s.StructV? && |d.fields| == |s.fields| == 5 && s.fields[3].StringV?
    ensures var fs := t.kind.fields;
            && LeafValue(fs[0], d.fields[0], s.fields[0]) == s.fields[0]
            && LeafValue(fs[1], d.fields[1], s.fields[1]) == d.fields[1]
            && LeafValue(fs[2], d.fields[2], s.fields[2]) == d.fields[2]
            && LeafValue(fs[3], d.fields[3], s.fields[3]) ==
                 (if s.fields[3] == StringV("") then d.fields[3] else s.fields[3])
            && LeafValue(fs[4], d.fields[4], s.fields[4]) == s.fields[4]
  {
    var fs := t.kind.fields;
    LeafCopied(fs[0], d.fields[0], s.fields[0]);
    LeafKept(fs[1], d.fields[1], s.fields[1], false);
    LeafKept(fs[2], d.fields[2], s.fields[2], false);
    LeafOmitemptyString(fs[3], d.fields[3], s.fields[3]);
    LeafCopied(fs[4], d.fields[4], s.fields[4]);
  }

  /** With all five fields visited, each holds what its own tag gives it. */
  lemma SimpleApplyFields(t: Type, d: Value, s: Value)
    requires SimpleKinds(t) && WellFormed(t) && Conforms(d, t) && Conforms(s, t) && Stop(t, 0) == 5
    ensures d.StructV? && s.StructV? && |d.fields| == |s.fields| == 5
    ensures var r := Apply(t, d, s);
            var fs := t.kind.fields;
            && r.1 == None && |r.0.fields| == 5
            && r.0.fields[0] == LeafValue(fs[0], d.fields[0], s.fields[0])
            && r.0.fields[1] == LeafValue(fs[1], d.fields[1], s.fields[1])
            && r.0.fields[2] == LeafValue(fs[2], d.fields[2], s.fields[2])
            && r.0.fields[3] == LeafValue(fs[3], d.fields[3], s.fields[3])
            && r.0.fields[4] == LeafValue(fs[4], d.fields[4], s.fields[4])
  {
    WalkCompletes(t, d, s);
  }

  lemma SimpleTypesParsed(t: Type, d: Value, s: Value)
    requires SimpleKinds(t) && SimpleParsed(t) && WellFormed(t)
    requires Conforms(d, t) && Conforms(s, t)
    ensures d.StructV? && s.StructV? && |d.fields| == |s.fields| == 5
    ensures Apply(t, d, s) ==
              (StructV([s.fields[0], d.fields[1], d.fields[2],
                        if s.fields[3] == StringV("") then d.fields[3] else s.fields[3],
                        s.fields[4]]), None)
  {
    SimpleNoFault(t);
    SimpleNoStop(t);
    SimpleShapes(t, d, s);
    SimpleLeaves(t, d, s);
    SimpleApplyFields(t, d, s);
    FiveEqual(Apply(t, d, s).0.fields,
              [s.fields[0], d.fields[1], d.fields[2],
               if s.fields[3] == StringV("") then d.fields[3] else s.fields[3], s.fields[4]]);
  }

  /**
   * TestSimpleTypes: N and L are copied, G and J kept, and H is kept exactly
   * when the source's H is empty (it is "" in the test); no error.
   */
  lemma SimpleTypes(t: Type, d: Value, s: Value)
    requires SimpleKinds(t) && SimpleTagged(t) && WellFormed(t)
    requires Conforms(d, t) && Conforms(s, t)
    ensures d.StructV? && s.StructV? && |d.fields| == |s.fields| == 5
    ensures Apply(t, d, s) ==
              (StructV([s.fields[0], d.fields[1], d.fields[2],
                        if s.fields[3] == StringV("") then d.fields[3] else s.fields[3],
                        s.fields[4]]), None)
  {
    SimpleTagsParse(t);
    SimpleTypesParsed(t, d, s);
  }

  /**
   * The field kinds of K and of T in TestNestedStructs: an int, a string,
   * then a struct, all exported.
   */
  predicate LevelKinds(t: Type)
  {
    && t.kind.Struct?
    && var fs := t.kind.fields;
    && |fs| == 3 && (forall k :: 0 <= k < 3 ==> fs[k].exported)
    && fs[0].typ.kind == Reflect.Int
    && fs[1].typ.kind == Reflect.String
    && fs[2].typ.kind.Struct?
  }

  /** Both leaves tagged `true`; the struct field has no tag. */
  predicate LevelTagged(t: Type)
    requires LevelKinds(t)
  {
    t.kind.fields[0].tag == "true" && t.kind.fields[1].tag == "true" && t.kind.fields[2].tag == ""
  }

  predicate LevelParsed(t: Type)
    requires LevelKinds(t)
  {
    NewTags(t.kind.fields[0].tag) == Ok(Tags(true, false))
    && NewTags(t.kind.fields[1].tag) == Ok(Tags(true, false))
  }

  /** The field kinds of Tt in TestNestedStructs: two exported strings. */
  predicate InnerKinds(t: Type)
  {
    && t.kind.Struct?
    && var fs := t.kind.fields;
    && |fs| == 2 && fs[0].exported && fs[1].exported
    && fs[0].typ.kind == Reflect.String
    && fs[1].typ.kind == Reflect.String
  }

  /** TtN tagged `true`, TtN1 without a tag. */
  predicate InnerTagged(t: Type)
    requires InnerKinds(t)
  {
    t.kind.fields[0].tag == "true" && t.kind.fields[1].tag == ""
  }

  predicate InnerParsed(t: Type)
    requires InnerKinds(t)
  {
    NewTags(t.kind.fields[0].tag) == Ok(Tags(true, false))
    && NewTags(t.kind.fields[1].tag) == Ok(Tags(false, false))
  }

  lemma NestedTagsParse(k: Type)
    requires LevelKinds(k) && LevelTagged(k)
    requires LevelKinds(k.kind.fields[2].typ) && LevelTagged(k.kind.fields[2].typ)
    requires InnerKinds(k.kind.fields[2].typ.kind.fields[2].typ)
    requires InnerTagged(k.kind.fields[2].typ.kind.fields[2].typ)
    ensures LevelParsed(k) && LevelParsed(k.kind.fields[2].typ)
    ensures InnerParsed(k.kind.fields[2].typ.kind.fields[2].typ)
  {
    TagTrue();
    TagAbsent();
  }

  /** The walk over K or T passes both leaves and stops at the struct field. */
  lemma LevelStop(t: Type)
    requires LevelKinds(t) && LevelParsed(t) && WellFormed(t)
    ensures Stop(t, 0) == 2
  {
    ExportedFieldPasses(t, 0);
    ExportedFieldPasses(t, 1);
    assert Stop(t, 2) == 2;
    assert Stop(t, 1) == 2;
  }

  /** Two leaf fields the walk passes, then a struct field it recurses into. */
  lemma TwoLeavesThenStruct(t: Type, d: Value, s: Value)
    requires t.kind.Struct? && WellFormed(t) && Conforms(d, t) && Conforms(s, t)
    requires |t.kind.fields| == 3 && t.kind.fields[2].typ.kind.Struct? && Stop(t, 0) == 2
    ensures d.StructV? && s.StructV? && |d.fields| == |s.fields| == 3
    ensures var fs := t.kind.fields;
            var n := Apply(fs[2].typ, d.fields[2], s.fields[2]);
            Apply(t, d, s) ==
              (StructV([LeafValue(fs[0], d.fields[0], s.fields[0]),
                        LeafValue(fs[1], d.fields[1], s.fields[1]), n.0]), n.1)
  {
    ApplyFieldwise(t, d, s);
    var f := Fieldwise(t, d, s, 0);
    var fs := t.kind.fields;
    var n := Apply(fs[2].typ, d.fields[2], s.fields[2]);
    ThreeEqual(f.0.fields, [LeafValue(fs[0], d.fields[0], s.fields[0]),
                            LeafValue(fs[1], d.fields[1], s.fields[1]), n.0]);
  }

  /** One of K and T: both leaves copied, then the walk recurses into the struct field. */
  lemma LevelApply(t: Type, d: Value, s: Value)
    requires LevelKinds(t) && LevelParsed(t) && WellFormed(t) && Conforms(d, t) && Conforms(s, t)
    ensures d.StructV? && s.StructV? && |d.fields| == |s.fields| == 3
    ensures var n := Apply(t.kind.fields[2].typ, d.fields[2], s.fields[2]);
            Apply(t, d, s) == (StructV([s.fields[0], s.fields[1], n.0]), n.1)
  {
    var fs := t.kind.fields;
    LevelStop(t);
    TwoLeavesThenStruct(t, d, s);
    LeafCopied(fs[0], d.fields[0], s.fields[0]);
    LeafCopied(fs[1], d.fields[1], s.fields[1]);
  }

  /** Tt: TtN copied, TtN1 kept, no error. */
  lemma InnerApply(t: Type, d: Value, s: Value)
    requires InnerKinds(t) && InnerParsed(t) && WellFormed(t) && Conforms(d, t) && Conforms(s, t)
    ensures d.StructV? && s.StructV? && |d.fields| == |s.fields| == 2
    ensures Apply(t, d, s) == (StructV([s.fields[0], d.fields[1]]), None)
  {
    var fs := t.kind.fields;
    ExportedFieldPasses(t, 0);
    ExportedFieldPasses(t, 1);
    assert Stop(t, 1) == 2;
    LeafCopied(fs[0], d.fields[0], s.fields[0]);
    LeafKept(fs[1], d.fields[1], s.fields[1], false);
    WalkCompletes(t, d, s);
    var r := Apply(t, d, s);
    TwoEqual(r.0.fields, [s.fields[0], d.fields[1]]);
  }

  /**
   * TestNestedStructs: every tagged field at every level is copied (KN, KB,
   * T.N, T.B, T.Tt.TtN), the untagged T.Tt.TtN1 is kept, and no error.
   */
  lemma NestedStructs(k: Type, d: Value, s: Value)
    requires LevelKinds(k) && LevelTagged(k)
    requires LevelKinds(k.kind.fields[2].typ) && LevelTagged(k.kind.fields[2].typ)
    requires InnerKinds(k.kind.fields[2].typ.kind.fields[2].typ)
    requires InnerTagged(k.kind.fields[2].typ.kind.fields[2].typ)
    requires WellFormed(k) && Conforms(d, k) && Conforms(s, k)
    ensures d.StructV? && |d.fields| == 3 && d.fields[2].StructV? && |d.fields[2].fields| == 3
    ensures d.fields[2].fields[2].StructV? && |d.fields[2].fields[2].fields| == 2
    ensures s.StructV? && |s.fields| == 3 && s.fields[2].StructV? && |s.fields[2].fields| == 3
    ensures s.fields[2].fields[2].StructV? && |s.fields[2].fields[2].fields| == 2
    ensures var dt, st := d.fields[2], s.fields[2];
            var dtt, stt := dt.fields[2], st.fields[2];
            Apply(k, d, s) ==
              (StructV([s.fields[0], s.fields[1],
                        StructV([st.fields[0], st.fields[1],
                                 StructV([stt.fields[0], dtt.fields[1]])])]), None)
  {
    var t := k.kind.fields[2].typ;
    var tt := t.kind.fields[2].typ;
    NestedTagsParse(k);
    LevelApply(k, d, s);
    LevelApply(t, d.fields[2], s.fields[2]);
    InnerApply(tt, d.fields[2].fields[2], s.fields[2].fields[2]);
  }

  /** Exported fields of the given kinds, each tagged `true`. */
  predicate TaggedTrueLayout(t: Type, kinds: seq<Kind>)
  {
    && t.kind.Struct? && |t.kind.fields| == |kinds|
    && forall k :: 0 <= k < |kinds| ==>
         t.kind.fields[k].typ.kind == kinds[k] && t.kind.fields[k].exported
         && t.kind.fields[k].tag == "true"
  }

  lemma TaggedTrueLayoutParses(t: Type, kinds: seq<Kind>)
    requires TaggedTrueLayout(t, kinds)
    requires forall k :: 0 <= k < |kinds| ==> CheckSupportedKind(kinds[k]) && !kinds[k].Struct?
    ensures AllTaggedTrue(t)
  {
    TagTrue();
  }

  /** TestMap: both map fields of the destination become the source's maps; no error. */
  lemma MapFields(t: Type, d: Value, s: Value)
    requires TaggedTrueLayout(t, [Map, Map])
    requires WellFormed(t) && Conforms(d, t) && Conforms(s, t)
    ensures Apply(t, d, s) == (s, None)
  {
    TaggedTrueLayoutParses(t, [Map, Map]);
    EveryFieldCopied(t, d, s);
  }

  /**
   * TestSliceAndArrays: the three slices and the array of the destination
   * become the source's, the nil source slice BS2 included; no error.
   */
  lemma SliceAndArrayFields(t: Type, d: Value, s: Value)
    requires TaggedTrueLayout(t, [Slice, Slice, Slice, Array])
    requires WellFormed(t) && Conforms(d, t) && Conforms(s, t)
    ensures Apply(t, d, s) == (s, None)
  {
    TaggedTrueLayoutParses(t, [Slice, Slice, Slice, Array]);
    EveryFieldCopied(t, d, s);
  }

  /**
   * A field tagged `true` that follows a struct field is never copied: the
   * walk recurses into the first struct field and returns (do.go:74).
   */
  lemma FieldAfterStructNotCopied(t: Type, d: Value, s: Value)
    requires t.kind.Struct? && WellFormed(t) && Conforms(d, t) && Conforms(s, t)
    requires var fs := t.kind.fields;
             |fs| == 2 && fs[0].typ.kind.Struct?
             && fs[1].typ.kind == Reflect.Int && fs[1].exported && fs[1].tag == "true"
    ensures d.StructV? && |d.fields| == 2
    ensures Apply(t, d, s).0.fields[1] == d.fields[1]
  {
    FirstStructEndsWalk(t, d, s, 0);
  }

  /** A struct with one exported slice field tagged `true,omitempty`. */
  predicate OmitSliceKinds(t: Type)
  {
    t.kind.Struct? && |t.kind.fields| == 1 && t.kind.fields[0].exported
    && t.kind.fields[0].typ.kind == Slice
  }

  lemma OmitSliceParsed(t: Type, d: Value, s: Value)
    requires OmitSliceKinds(t) && NewTags(t.kind.fields[0].tag) == Ok(Tags(true, true))
    requires WellFormed(t) && Conforms(d, t) && Conforms(s, t)
    ensures d.StructV? && s.StructV? && |d.fields| == |s.fields| == 1
    ensures s.fields[0] == SliceV(Some([])) ==> Apply(t, d, s) == (s, None)
    ensures s.fields[0] == SliceV(None) ==> Apply(t, d, s) == (d, None)
  {
    ExportedFieldPasses(t, 0);
    assert Stop(t, 0) == 1;
    WalkCompletes(t, d, s);
    var r := Apply(t, d, s);
    if s.fields[0] == SliceV(Some([])) {
      OneEqual(r.0.fields, s.fields);
    } else if s.fields[0] == SliceV(None) {
      OneEqual(r.0.fields, d.fields);
    }
  }

  /**
   * omitempty goes by reflect's IsZero: an empty but non-nil slice in the
   * source is copied over the destination's, and only a nil one is skipped.
   */
  lemma EmptySliceIsCopied(t: Type, d: Value, s: Value)
    requires OmitSliceKinds(t) && t.kind.fields[0].tag == "true,omitempty"
    requires WellFormed(t) && Conforms(d, t) && Conforms(s, t)
    ensures d.StructV? && s.StructV? && |d.fields| == |s.fields| == 1
    ensures s.fields[0] == SliceV(Some([])) ==> Apply(t, d, s) == (s, None)
    ensures s.fields[0] == SliceV(None) ==> Apply(t, d, s) == (d, None)
  {
    TagTrueOmitempty();
    OmitSliceParsed(t, d, s);
  }
}
