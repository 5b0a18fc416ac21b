# overwrite, modelled in Dafny

A model of the Go package `overwrite`. Its single entry point `Do(dst, src)`
copies fields of the struct `src` into the struct `dst` points to. A
field is copied only when it is tagged `overwrite:"true"`, and
`overwrite:"true,omitempty"` additionally skips a source value that is zero.
The project models the tag parser (`newTags`) and the copy engine (`Do`,
`checkInput`, `checkSupportedKind`, `checkCanSet`, the error sentinels). It
then proves what one call does to every field, where the walk stops, what
decides the error, and that a second identical call changes nothing.

Modules, one per concern:

- `Wrappers` — `Option` and `Result`.
- `Tags` (tag.go) — `strings.Split` on `,`, `strconv.ParseBool`, and
  `NewTags`, with their round trips.
- `Reflect` — stands in for Go's reflection. It gives explicit descriptors of
  struct types (`Kind`, `Type`, `Field`) and values (`Value`), plus
  `IsZero`, `FieldByName`, paths into nested structs and `Cell`, the variable
  a pointer designates.
- `Overwrite` (do.go) — the error kinds and the argument checks. The
  specification function `Apply` gives the walk. The imperative `Do`,
  `CopyFields` and `DescendInto` are proved against `Apply`: they write into
  the destination `Cell` field by field, in place.
- `OverwriteProperties` — a closed, field-by-field description of `Apply`
  (`Fieldwise`) and the properties of a call, which follow from it.
- `Scenarios` — the package's tests, plus consequences of the code that the
  tests do not reach (the edge tag spellings, the field after a struct field,
  the empty non-nil slice). Each is stated over every struct type laid out as
  the example's type, with every destination and source value.

The model keeps three behaviours of the code as written:

- The loop returns from inside the recursive call on the first struct-kind
  field (do.go:74). Later fields at that level are never visited.
- A failure leaves the fields already written as they are; nothing is rolled
  back.
- `checkInput` compares the two types by printed name.

Two statements of the package's prose differ from its code. The model
follows the code in both cases:

- The doc comment of `Do` (do.go:39-41) counts any empty array, slice, map
  or string as "empty" for omitempty. The code (do.go:97) uses
  `reflect.Value.IsZero`, so an empty but non-nil slice or map is copied.
  `Reflect.IsZeroIffZeroValue` and `Scenarios.EmptySliceIsCopied` state this.
- The error message of `newTags` (tag.go:47) says only
  `true/false,omitempty` is allowed. The code (tag.go:39) accepts every
  spelling `strconv.ParseBool` accepts (`1`, `t`, `T`, `TRUE`, `True`, and
  their false counterparts).

## Model

| member | source | states |
|---|---|---|
| Tags.Split | tag.go:26 | `strings.Split` on one character: one piece more than there are separators, no piece contains the separator, and joining the pieces gives the input back |
| Tags.SplitJoin | tag.go:26 | splitting inverts joining for any non-empty list of separator-free pieces |
| Tags.ParseBool | tag.go:39 | `Some(true)` exactly for the six true spellings of `strconv.ParseBool`, `Some(false)` exactly for the six false ones, otherwise an error |
| Tags.NewTags | tag.go:24-50 | with three or more tokens the result is the wrong-number error. With two tokens and a second that is not `omitempty`, it is the second-value error. NotABool exactly when the first token is non-empty and rejected by ParseBool while the count and second token are acceptable. On success, `omitempty` is set iff there were two tokens |
| Tags.RenderParses | tag.go:28-49 | every spelling `<first>` or `<first>,omitempty` with an empty or boolean first token parses, to overwrite = (first token reads as true) and the omitempty it spells |
| Tags.ParsedIsRendered | tag.go:28-49 | conversely, every tag NewTags accepts is such a spelling, and its overwrite flag is what the first token reads as |
| Overwrite.CheckInput | do.go:108-130 | each of the six outcomes (nil for success, DstNil, SrcNil, DstNotPtr, SrcNotStruct, NotSameType) happens exactly when its check is the first to fail, in the source's order, with types compared by name |
| Overwrite.CheckSupportedKind | do.go:132-142 | a kind is supported exactly when it is none of struct, chan, func, interface, pointer, unsafe pointer, complex64, complex128, uintptr |
| Overwrite.CheckCanSet | do.go:144-150 | its only error is CannotSetField |
| Overwrite.CanSetIffExported | do.go:144-150 | in a well-formed struct, checkCanSet on a field's name succeeds iff that field is exported, and an exported field is the one its name finds |
| Overwrite.Visit | do.go:71-102 | the loop recurses on a field iff it is a struct, and copies a field only when checkCanSet succeeds on its name |
| Overwrite.ApplyFrom | do.go:68-105 | the loop from field `i` on keeps the destination a value of its struct type |
| Overwrite.Stop | do.go:68-99 | the first field at or after `i` that is a struct or whose declaration makes the loop fail; every field before it passes |
| Overwrite.Do | do.go:58-106 | an input check that fails is returned and the destination is unchanged; otherwise the error is the walk's and the pointed-to struct alone is replaced by the walk's result, inside the variable the pointer designates |
| Overwrite.CopyFields | do.go:63-105 | the loop leaves in the destination exactly what `Apply` gives and returns its error, field by field in place |
| Overwrite.DescendInto | do.go:71-75 | the recursive call on a struct field, through a pointer into the destination, gives the rest of the walk at this level |
| Reflect.FieldByName | do.go:145 | the index found names a field with that name |
| Reflect.FieldIndex | do.go:102 | the first field called `name` from `from` on, or none when no such field exists |
| Reflect.ExportedFoundByName | do.go:102 | in a well-formed struct, looking up an exported field by its name finds that field itself |
| Reflect.SetAt | do.go:74 | writing through an interior pointer: the path stays valid and leads to the new value |
| Reflect.SetAtSame | do.go:74 | writing back the value already at a path changes nothing |
| Reflect.SetAtTwice | do.go:102 | the later of two writes at one path wins |
| Reflect.SetAtElsewhere | do.go:74 | writing at one path leaves the value at every path that diverges from it unchanged, so a call changes nothing outside the struct `dst` points to |
| Reflect.IsZeroIffZeroValue | do.go:97 | `reflect.Value.IsZero`: a value is zero iff it equals the zero value of its type: false, 0, "", a nil slice, map or reference, an array or struct whose elements are all zero |
| OverwriteProperties.VisitRules | do.go:71-102 | the loop fails on a field iff that field's fault (which depends on the type alone) is set, with that fault as the error; a field it passes keeps its value and one it copies takes the source's, as the per-field rule says |
| OverwriteProperties.ApplyFieldwise | do.go:58-106 | a call, described field by field. Before the stopping field, each field ends as its own tag says. Fields after it keep their value. The stopping field decides the error: the recursive call's for a struct (whose result it takes), its own fault otherwise, nil when there is none |
| OverwriteProperties.UntaggedFieldKept | do.go:77-91 | a field of unsupported kind, or whose tag does not say true, keeps its destination value whatever the source holds |
| OverwriteProperties.TaggedFieldResult | do.go:93-102 | on success, a supported field tagged true before any struct field ends with the source value, except that with omitempty a zero source value leaves it unchanged |
| OverwriteProperties.FirstStructEndsWalk | do.go:71-75 | fields after the first struct field keep their value; when nothing before it fails, that field and the error are the recursive call's |
| OverwriteProperties.AbortKeepsEarlierWrites | do.go:83-99 | when a field fails: fields before it stay written as their tags say, it and every later field keep their value, and its fault is the error |
| OverwriteProperties.UnexportedTaggedFieldFails | do.go:93-95 | an unexported supported field tagged true fails with CannotSetField, whatever its source value |
| OverwriteProperties.ExportedFieldPasses | do.go:83-95 | an exported leaf field whose tag parses never fails |
| OverwriteProperties.WalkCompletes | do.go:68-105 | when no field stops the walk, the call succeeds and each field holds what its tag gives it |
| OverwriteProperties.AllTaggedTrueNoStop | do.go:68-95 | when every field is an exported supported leaf tagged true, the walk visits them all |
| OverwriteProperties.EveryFieldCopied | do.go:97-102 | when every field is tagged plain `true`, the destination becomes equal to the source, slices, arrays and maps included, nil ones included |
| OverwriteProperties.ErrorDependsOnTypeOnly | do.go:68-105 | the kind of error a call returns depends on the struct type alone, never on either value |
| OverwriteProperties.ApplyIdempotent | do.go:58-106 | a second call with the same source leaves the destination as the first left it and returns the same error |
| OverwriteProperties.IgnoredTagIrrelevant | do.go:71-83 | the tag of a struct field or of an unsupported field is never read: changing it changes neither the result nor the error |
| OverwriteProperties.StopSameFaults | do.go:68-95 | two struct types with the same field types and the same field faults stop the walk at the same field |
| OverwriteProperties.RetagFaults | do.go:78-95 | retagging a field whose tag is never read changes no field's fault and not where the walk stops |
| Scenarios.TagTrueOmitempty | tag_test.go:16-19 | `true,omitempty` parses to overwrite and omitempty |
| Scenarios.TagTrue | tag_test.go:21-24 | `true` parses to overwrite without omitempty |
| Scenarios.TagFalse | tag_test.go:26-29 | `false` parses to neither |
| Scenarios.TagNotABool | tag_test.go:31-34 | `gurka,omitempty` is rejected as not a boolean |
| Scenarios.TagThreeTokens | tag_test.go:36-38 | `true,false,omitempty` is rejected for its number of tokens |
| Scenarios.TagAbsent | tag_test.go:40-43 | the empty tag parses to neither flag |
| Scenarios.TagOnlyOmitempty | tag.go:36-43 | `,omitempty` is accepted, with overwrite false |
| Scenarios.TagSecondNotOmitempty | tag.go:29-33 | `true,false` is rejected for its second token |
| Scenarios.ThreeTokensRejected | tag.go:46-47 | any three separator-free tokens are rejected, whatever they say |
| Scenarios.NotABoolRejected | tag.go:38-42 | a non-empty first token ParseBool refuses, followed by `omitempty`, is rejected as not a boolean |
| Scenarios.WithOmitempty | tag.go:29-43 | a valid first token followed by `omitempty` parses with omitempty set |
| Scenarios.InputChecks | do_test.go:14-38 | the six argument combinations of TestTypes give DstNil, SrcNil, DstNotPtr, SrcNotStruct and NotSameType, and the last, `Do(&T{}, T{})` with T's one untagged int field, passes the checks and returns nil with the destination unchanged |
| Scenarios.UntaggedIntWalk | do_test.go:37-38 | the walk over `struct{ N int }` with N untagged returns nil and changes nothing |
| Scenarios.SimpleTypes | do_test.go:149-228 | for a struct laid out as the test's (int `true`, string `false`, untagged string, string `true,omitempty`, bool `true`): the tagged fields are copied, the other two kept, the omitempty string kept exactly when the source's is "", and no error |
| Scenarios.NestedStructs | do_test.go:41-90 | for three nested structs laid out as K, T and Tt: every field tagged true at every level is copied, the untagged innermost TtN1 is kept, and no error |
| Scenarios.MapFields | do_test.go:93-112 | two map fields tagged true: the destination becomes the source |
| Scenarios.SliceAndArrayFields | do_test.go:115-146 | three slices and an array tagged true: the destination becomes the source, a nil source slice included |
| Scenarios.FieldAfterStructNotCopied | do.go:71-75 | an int field tagged true after a struct field keeps its destination value |
| Scenarios.EmptySliceIsCopied | do.go:97-99 | with `true,omitempty`, an empty non-nil source slice replaces the destination's field and a nil one leaves the destination unchanged |

## Left out

- Do: a model `Type` is a description, a printed name plus a `Kind`, and `Slice`, `Map` and `Array` carry no element type. So two distinct Go types with the same printed name and the same description (for example `type E int` declared in two functions, or `type S []int` and `type S []string`) are one type in the model, while Go keeps them distinct. `checkInput` passes on such a pair (do.go:125). Go then panics in `Set` (do.go:102) whenever a copied field's type is one of those duplicated named types, where the model copies the field. The precondition `dst.elem == src.typ` excludes only the same-named pairs whose descriptions differ. For those, Go may return `ErrCannotSetField` (do.go:145-147) or `ErrNotSameType` from the recursive call (do.go:74, do.go:125), return nil, or panic in `Set` (do.go:102) or `Field(i)` (do.go:74); none of these outcomes is modelled.
- Do: its precondition excludes a walk into an unexported struct field, where `Interface` (do.go:74) panics.
- Do: it also requires what Go's compiler guarantees of a struct type: no two fields share a name unless both are unexported (`_`).
- A nil pointer of a pointer type passed as `dst` (a typed nil) is not representable; `Ptr` always designates a variable. With such a dst, Go returns `ErrSrcNil` for a nil src and `ErrSrcNotStruct` for a non-struct src (do.go:113-123), and panics at `Elem().Type()` (do.go:125) for a struct src; the model expresses none of these three outcomes.
- Errors are modelled by their kind, not their text. The tag errors all wrap `ErrTagValueWrong` in Go; the model tells them apart as three `TagFault` values, which is finer, not coarser.
- `StructTag.Get` is not modelled: a `Field` holds the value of its `overwrite` key directly, `""` when the key is absent.
- `strconv.ParseBool` is modelled by its documented set of accepted spellings; its error value is not.
- Integer widths and floating point are not modelled. Integers are unbounded, and a float is its bit pattern, zero iff all bits are zero. No operation of the package does arithmetic on them.
- `CanAddr` and `CanSet` are modelled as "the field is exported". Every destination field is reached through a pointer, so it is always addressable.
- Embedded structs and promoted fields are not modelled: `FieldByName` sees only the struct's own fields.
- Sharing after a copy is not modelled: `Set` (do.go:102) copies a slice header or a map reference, so afterwards the destination field shares its backing array or map with the caller's source, and a later write through one is seen through the other. `SliceV` and `MapV` are plain values and drop that sharing.
- Scenarios.SimpleTypes: states TestSimpleTypes over five of its seventeen fields, one per distinct tag. The other twelve are leaves of supported kinds tagged `true`, and TaggedFieldResult and WalkCompletes cover them.
- Concurrency is not modelled: the package has none.
