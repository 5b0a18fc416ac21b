/**
 * The struct-tag grammar of package overwrite (tag.go): the value of an
 * `overwrite:"…"` annotation is split on commas and read as
 * `<bool>[,omitempty]`.
 */
module Tags {
  import opened Wrappers

  /** The parsed directive: copy the field at all, and skip a zero source value. */
  datatype Tags = Tags(overwrite: bool, omitempty: bool)

  /**
   * The three ways a tag value is wrong. Every one of them wraps the sentinel
   * ErrTagValueWrong; only the message text differs, and that is not modelled.
   */
  datatype TagFault =
    | SecondValueNotOmitempty  // two tokens, the second not `omitempty`
    | NotABool                 // a non-empty first token that strconv.ParseBool rejects
    | WrongNumberOfTags        // three or more tokens

  const Separator: char := ','
  const OmitemptyValue: string := "omitempty"

  /** Number of occurrences of `c` in `s`. */
  function Count(s: string, c: char): nat
  {
    if |s| == 0 then 0 else (if s[0] == c then 1 else 0) + Count(s[1..], c)
  }

  /** Glue pieces back together with `sep` between neighbours (strings.Join). */
  function Join(pieces: seq<string>, sep: char): string
  {
    if |pieces| == 0 then ""
    else if |pieces| == 1 then pieces[0]
    else pieces[0] + [sep] + Join(pieces[1..], sep)
  }

  /**
   * strings.Split with a one-character separator: the maximal separator-free
   * pieces of `s`, one more than there are separators, so never zero pieces.
   */
  function Split(s: string, sep: char): (r: seq<string>)
    ensures |r| == Count(s, sep) + 1
    ensures forall k :: 0 <= k < |r| ==> sep !in r[k]
    ensures Join(r, sep) == s
    decreases |s|
  {
    if |s| == 0 then [""]
    else
      var rest := Split(s[1..], sep);
      if s[0] == sep then
        assert ([""] + rest)[1..] == rest;
        [""] + rest
      else
        var r := [[s[0]] + rest[0]] + rest[1..];
        assert r[1..] == rest[1..];
        assert s == [s[0]] + s[1..];
        r
  }

  /** A string with no separator in it is split into itself alone. */
  lemma {:induction false} SplitNoSeparator(s: string, sep: char)
    requires sep !in s
    ensures Split(s, sep) == [s]
  {
    if |s| > 0 {
      assert sep !in s[1..];
      SplitNoSeparator(s[1..], sep);
      assert [s[0]] + s[1..] == s;
    }
  }

  /** Splitting at the first separator: a separator-free head becomes the first piece. */
  lemma {:induction false} SplitCons(a: string, sep: char, b: string)
    requires sep !in a
    ensures Split(a + [sep] + b, sep) == [a] + Split(b, sep)
    decreases |a|
  {
    var s := a + [sep] + b;
    if |a| == 0 {
      assert s[1..] == b;
    } else {
      assert s[0] == a[0];
      assert s[1..] == a[1..] + [sep] + b;
      assert sep !in a[1..];
      SplitCons(a[1..], sep, b);
      assert [a[0]] + a[1..] == a;
    }
  }

  /** Split inverts Join on separator-free pieces. */
  lemma {:induction false} SplitJoin(pieces: seq<string>, sep: char)
    requires |pieces| >= 1
    requires forall k :: 0 <= k < |pieces| ==> sep !in pieces[k]
    ensures Split(Join(pieces, sep), sep) == pieces
  {
    if |pieces| == 1 {
      SplitNoSeparator(pieces[0], sep);
    } else {
      SplitJoin(pieces[1..], sep);
      SplitCons(pieces[0], sep, Join(pieces[1..], sep));
      assert [pieces[0]] + pieces[1..] == pieces;
    }
  }

  /** The spellings strconv.ParseBool reads as true. */
  predicate IsTrueForm(s: string)
  {
    s == "1" || s == "t" || s == "T" || s == "TRUE" || s == "true" || s == "True"
  }

  /** The spellings strconv.ParseBool reads as false. */
  predicate IsFalseForm(s: string)
  {
    s == "0" || s == "f" || s == "F" || s == "FALSE" || s == "false" || s == "False"
  }

  /** strconv.ParseBool, as its documented fixed set of accepted spellings. */
  function ParseBool(s: string): (r: Option<bool>)
    ensures r == Some(true) <==> IsTrueForm(s)
    ensures r == Some(false) <==> IsFalseForm(s)
  {
    if IsTrueForm(s) then Some(true)
    else if IsFalseForm(s) then Some(false)
    else None
  }

  /**
   * The shared tail of the one-token case, reached directly with one token and
   * by `fallthrough` with two: an empty first token leaves `overwrite` false.
   */
  function ParseFirst(token: string, omitempty: bool): Result<Tags, TagFault>
  {
    if token != "" then
      match ParseBool(token)
      case None => Err(NotABool)
      case Some(b) => Ok(Tags(b, omitempty))
    else Ok(Tags(false, omitempty))
  }

  /** newTags: parse the value of an `overwrite` struct tag. */
  function NewTags(input: string): (r: Result<Tags, TagFault>)
    ensures r.Ok? ==> (r.value.omitempty <==> |Split(input, Separator)| == 2)
    ensures |Split(input, Separator)| >= 3 ==> r == Err(WrongNumberOfTags)
    ensures |Split(input, Separator)| == 2 && Split(input, Separator)[1] != OmitemptyValue ==>
              r == Err(SecondValueNotOmitempty)
    ensures r == Err(NotABool) <==>
              var tokens := Split(input, Separator);
              (|tokens| == 1 || (|tokens| == 2 && tokens[1] == OmitemptyValue))
              && tokens[0] != "" && ParseBool(tokens[0]).None?
  {
    var tokens := Split(input, Separator);
    if |tokens| == 2 then
      if tokens[1] != OmitemptyValue then Err(SecondValueNotOmitempty)
      else ParseFirst(tokens[0], true)
    else if |tokens| == 1 then ParseFirst(tokens[0], false)
    else if |tokens| == 0 then Ok(Tags(false, false))
    else Err(WrongNumberOfTags)
  }

  /** A first token NewTags accepts: empty, or a spelling ParseBool accepts. */
  predicate ValidFirst(token: string)
  {
    token == "" || ParseBool(token).Some?
  }

  /** The tag value that spells a first token and, optionally, `,omitempty`. */
  function Render(token: string, omitempty: bool): string
  {
    if omitempty then token + [Separator] + OmitemptyValue else token
  }

  /** Every well-formed spelling parses, to the flags it spells. */
  lemma RenderParses(token: string, omitempty: bool)
    requires ValidFirst(token)
    ensures NewTags(Render(token, omitempty)) ==
              Ok(Tags(token != "" && ParseBool(token) == Some(true), omitempty))
  {
    assert Separator !in token by {
      assert token == "" || |token| == 1 || IsTrueForm(token) || IsFalseForm(token);
    }
    assert Separator !in OmitemptyValue;
    if omitempty {
      SplitJoin([token, OmitemptyValue], Separator);
      assert Join([token, OmitemptyValue], Separator) == Render(token, omitempty);
    } else {
      SplitNoSeparator(token, Separator);
    }
  }

  /** Conversely, everything NewTags accepts is such a spelling. */
  lemma ParsedIsRendered(input: string)
    requires NewTags(input).Ok?
    ensures var tokens := Split(input, Separator);
            ValidFirst(tokens[0])
            && input == Render(tokens[0], NewTags(input).value.omitempty)
            && NewTags(input).value.overwrite == (ParseBool(tokens[0]) == Some(true))
  {
    var tokens := Split(input, Separator);
    if |tokens| == 2 {
      assert tokens == [tokens[0], tokens[1]];
      assert Join(tokens, Separator) == tokens[0] + [Separator] + tokens[1];
    }
  }
}
