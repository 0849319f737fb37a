/** The input side of the statistics page: the `numbers` form field is
    tokenised (`strings.Replace` of commas, then `strings.Fields`) and every
    token parsed, all or nothing (`processRequest`). */
module StatisticsInput {
  import opened Wrappers
  import opened Strings

  /** `unicode.IsSpace`: the Latin-1 spaces, then the other Unicode
      White_Space characters. */
  predicate IsSpace(c: char) {
    var u := c as int;
    (0x09 <= u <= 0x0D) || u == 0x20 || u == 0x85 || u == 0xA0
    || u == 0x1680 || (0x2000 <= u <= 0x200A) || u == 0x2028 || u == 0x2029
    || u == 0x202F || u == 0x205F || u == 0x3000
  }

  /** A token: a non-empty run of characters none of which is a space. */
  predicate IsWord(w: string) {
    w != [] && forall i :: 0 <= i < |w| ==> !IsSpace(w[i])
  }

  /** `strings.Replace(text, ",", " ", -1)`. */
  function ReplaceCommas(text: string): string {
    seq(|text|, i requires 0 <= i < |text| => if text[i] == ',' then ' ' else text[i])
  }

  /** The length of the run of non-space characters `s` starts with. */
  function LeadingWord(s: string): (n: nat)
    ensures n <= |s|
    ensures forall i :: 0 <= i < n ==> !IsSpace(s[i])
    ensures n < |s| ==> IsSpace(s[n])
  {
    if s == [] || IsSpace(s[0]) then 0 else 1 + LeadingWord(s[1..])
  }

  /** `strings.Fields`: the maximal runs of non-space characters, in order. */
  function Fields(s: string): (r: seq<string>)
    ensures forall i :: 0 <= i < |r| ==> IsWord(r[i])
    decreases |s|
  {
    if s == [] then []
    else if IsSpace(s[0]) then Fields(s[1..])
    else
      var n := LeadingWord(s);
      [s[..n]] + Fields(s[n..])
  }

  /** The tokens of the submitted text. */
  function Tokens(text: string): (r: seq<string>)
    ensures forall i :: 0 <= i < |r| ==> IsWord(r[i]) && ',' !in r[i]
  {
    var r := Fields(ReplaceCommas(text));
    assert forall i :: 0 <= i < |r| ==> ',' !in r[i] by {
      TokensHaveNoComma(text);
    }
    r
  }

  /** The characters of `s` that are not spaces, in order. */
  function NonSpace(s: string): string {
    if s == [] then [] else (if IsSpace(s[0]) then [] else [s[0]]) + NonSpace(s[1..])
  }

  function Concat(ws: seq<string>): string {
    if ws == [] then [] else ws[0] + Concat(ws[1..])
  }

  /** How many non-space characters start a run: follow a space or the start. */
  function RunStarts(s: string, afterSpace: bool): nat {
    if s == [] then 0
    else (if afterSpace && !IsSpace(s[0]) then 1 else 0) + RunStarts(s[1..], IsSpace(s[0]))
  }

  lemma {:induction false} NonSpaceAppend(a: string, b: string)
    ensures NonSpace(a + b) == NonSpace(a) + NonSpace(b)
  {
    if a != [] {
      assert (a + b)[0] == a[0] && (a + b)[1..] == a[1..] + b;
      NonSpaceAppend(a[1..], b);
    } else {
      assert a + b == b;
    }
  }

  lemma {:induction false} NonSpaceOfWord(w: string)
    requires forall i :: 0 <= i < |w| ==> !IsSpace(w[i])
    ensures NonSpace(w) == w
  {
    if w != [] {
      NonSpaceOfWord(w[1..]);
    }
  }

  /** The tokens, concatenated, are exactly the non-space characters. */
  lemma {:induction false} FieldsKeepNonSpace(s: string)
    ensures Concat(Fields(s)) == NonSpace(s)
    decreases |s|
  {
    if s != [] {
      if IsSpace(s[0]) {
        FieldsKeepNonSpace(s[1..]);
      } else {
        var n := LeadingWord(s);
        assert s == s[..n] + s[n..];
        FieldsKeepNonSpace(s[n..]);
        NonSpaceAppend(s[..n], s[n..]);
        NonSpaceOfWord(s[..n]);
      }
    }
  }

  /** Inside a run no new run starts. */
  lemma {:induction false} RunStartsOfWord(w: string, rest: string)
    requires forall i :: 0 <= i < |w| ==> !IsSpace(w[i])
    requires rest == [] || IsSpace(rest[0])
    ensures RunStarts(w + rest, false) == RunStarts(rest, true)
  {
    if w == [] {
      assert w + rest == rest;
      if rest != [] {
        assert RunStarts(rest, false) == RunStarts(rest[1..], true);
      }
    } else {
      assert (w + rest)[0] == w[0] && (w + rest)[1..] == w[1..] + rest;
      RunStartsOfWord(w[1..], rest);
    }
  }

  /** There is one token per run start. With `FieldsKeepNonSpace` this fixes
      the tokens' content and count; that each token is a whole maximal run
      is what `FieldsOfWordThen` and `SpacesSkipped` state. */
  lemma {:induction false} FieldsCountRuns(s: string)
    ensures |Fields(s)| == RunStarts(s, true)
    decreases |s|
  {
    if s != [] {
      if IsSpace(s[0]) {
        FieldsCountRuns(s[1..]);
      } else {
        var n := LeadingWord(s);
        FieldsCountRuns(s[n..]);
        assert s == [s[0]] + (s[1..n] + s[n..]);
        assert s[1..] == s[1..n] + s[n..];
        RunStartsOfWord(s[1..n], s[n..]);
      }
    }
  }

  /** Only blank text has no tokens. */
  lemma {:induction false} FieldsEmptyIffBlank(s: string)
    ensures Fields(s) == [] <==> forall i :: 0 <= i < |s| ==> IsSpace(s[i])
    decreases |s|
  {
    if s != [] {
      FieldsEmptyIffBlank(s[1..]);
      assert forall i :: 1 <= i < |s| ==> s[i] == s[1..][i - 1];
    }
  }

  /** A word followed by nothing or by a space is split off whole. */
  lemma FieldsOfWordThen(w: string, rest: string)
    requires IsWord(w)
    requires rest == [] || IsSpace(rest[0])
    ensures Fields(w + rest) == [w] + Fields(rest)
  {
    var s := w + rest;
    LeadingWordOf(w, rest);
    assert s[..|w|] == w && s[|w|..] == rest;
  }

  lemma {:induction false} LeadingWordOf(w: string, rest: string)
    requires forall i :: 0 <= i < |w| ==> !IsSpace(w[i])
    requires rest == [] || IsSpace(rest[0])
    ensures LeadingWord(w + rest) == |w|
  {
    if w == [] {
      assert w + rest == rest;
    } else {
      assert (w + rest)[1..] == w[1..] + rest;
      LeadingWordOf(w[1..], rest);
    }
  }

  /** Tokens joined by single spaces split back into the same tokens. */
  lemma {:induction false} FieldsOfJoin(ws: seq<string>)
    requires forall i :: 0 <= i < |ws| ==> IsWord(ws[i])
    ensures Fields(Join(ws, ' ')) == ws
  {
    if |ws| == 1 {
      FieldsOfWordThen(ws[0], "");
      assert ws[0] + "" == ws[0];
    } else if |ws| > 1 {
      var rest := Join(ws[1..], ' ');
      assert Join(ws, ' ') == ws[0] + ([' '] + rest);
      FieldsOfWordThen(ws[0], [' '] + rest);
      assert ([' '] + rest)[1..] == rest;
      FieldsOfJoin(ws[1..]);
    }
  }

  lemma {:induction false} FieldsOfCommaFree(s: string)
    requires ',' !in s
    ensures forall i :: 0 <= i < |Fields(s)| ==> ',' !in Fields(s)[i]
    decreases |s|
  {
    if s != [] {
      if IsSpace(s[0]) {
        FieldsOfCommaFree(s[1..]);
      } else {
        var n := LeadingWord(s);
        assert ',' !in s[n..] && ',' !in s[..n];
        FieldsOfCommaFree(s[n..]);
      }
    }
  }

  /** Every comma became a space, so no token holds a comma. */
  lemma TokensHaveNoComma(text: string)
    ensures forall i :: 0 <= i < |Fields(ReplaceCommas(text))| ==> ',' !in Fields(ReplaceCommas(text))[i]
  {
    FieldsOfCommaFree(ReplaceCommas(text));
  }

  /** The form values submitted for each field name (`request.Form`). */
  type Form = map<string, seq<string>>

  /** The text of the `numbers` field, when it was submitted. */
  function Submitted(form: Form): Option<string> {
    if "numbers" in form && |form["numbers"]| > 0 then Some(form["numbers"][0]) else None
  }

  /** The tokens of the `numbers` field; none when it is missing. */
  function FieldTokens(form: Form): seq<string> {
    match Submitted(form)
    case None => []
    case Some(text) => Tokens(text)
  }

  /** The error message naming a token `strconv.ParseFloat` rejected. */
  function InvalidMessage(token: string): string {
    "'" + token + "' is invalid"
  }

  /** The position of the first token `parse` rejects, or `|tokens|`. */
  function FirstInvalid(tokens: seq<string>, parse: string -> Option<real>): (k: nat)
    ensures k <= |tokens|
    ensures forall i :: 0 <= i < k ==> parse(tokens[i]).Some?
    ensures k < |tokens| ==> parse(tokens[k]).None?
  {
    if tokens == [] then 0
    else if parse(tokens[0]).None? then 0
    else 1 + FirstInvalid(tokens[1..], parse)
  }

  /** The numbers parsed from the tokens before the first rejected one. */
  function Parsed(tokens: seq<string>, parse: string -> Option<real>): (numbers: seq<real>)
    ensures |numbers| == FirstInvalid(tokens, parse)
    ensures forall i :: 0 <= i < |numbers| ==> parse(tokens[i]) == Some(numbers[i])
  {
    if tokens == [] then []
    else match parse(tokens[0])
      case None => []
      case Some(x) => [x] + Parsed(tokens[1..], parse)
  }

  /** `Parsed` is the only list of parsed values that stops at the first
      rejected token. */
  lemma ParsedUnique(tokens: seq<string>, parse: string -> Option<real>, numbers: seq<real>)
    requires |numbers| <= |tokens|
    requires forall i :: 0 <= i < |numbers| ==> parse(tokens[i]) == Some(numbers[i])
    requires |numbers| < |tokens| ==> parse(tokens[|numbers|]).None?
    ensures numbers == Parsed(tokens, parse)
  {
  }

  /** `processRequest`: `parse` stands for `strconv.ParseFloat(_, 64)`, with
      `None` for a non-nil error. The numbers parsed before a rejected token
      are returned too, as the Go code does; its caller ignores them. */
  method ProcessRequest(form: Form, parse: string -> Option<real>)
    returns (numbers: seq<real>, message: string, ok: bool)
    ensures var tokens := FieldTokens(form); var k := FirstInvalid(tokens, parse);
      && (ok <==> |tokens| > 0 && k == |tokens|)
      && numbers == Parsed(tokens, parse)
      && (k < |tokens| ==> message == InvalidMessage(tokens[k]))
      && (k == |tokens| ==> message == "")
  {
    numbers := [];
    if "numbers" in form && |form["numbers"]| > 0 {
      var slice := form["numbers"];
      var text := ReplaceCommas(slice[0]);
      var fields := Fields(text);
      assert fields == FieldTokens(form);
      for i := 0 to |fields|
        invariant |numbers| == i
        invariant forall j :: 0 <= j < i ==> parse(fields[j]) == Some(numbers[j])
      {
        var x := parse(fields[i]);
        if x.None? {
          ParsedUnique(fields, parse, numbers);
          return numbers, InvalidMessage(fields[i]), false;
        }
        numbers := numbers + [x.value];
      }
    }
    ParsedUnique(FieldTokens(form), parse, numbers);
    if |numbers| == 0 {
      return numbers, "", false;
    }
    return numbers, "", true;
  }

  /** `strings.Replace` works piecewise. */
  lemma ReplaceCommasConcat(a: string, b: string)
    ensures ReplaceCommas(a + b) == ReplaceCommas(a) + ReplaceCommas(b)
  {
  }

  /** Three comma-free words separated by `", "` are the three tokens. */
  lemma CommaSeparatedTokens(a: string, b: string, c: string)
    requires IsWord(a) && IsWord(b) && IsWord(c)
    requires ',' !in a && ',' !in b && ',' !in c
    ensures Tokens(a + ", " + b + ", " + c) == [a, b, c]
  {
    var sep := ", ";
    var sp := "  ";
    assert ReplaceCommas(sep) == sp;
    assert ReplaceCommas(a) == a && ReplaceCommas(b) == b && ReplaceCommas(c) == c;
    ReplaceCommasConcat(a + sep + b + sep, c);
    ReplaceCommasConcat(a + sep + b, sep);
    ReplaceCommasConcat(a + sep, b);
    ReplaceCommasConcat(a, sep);
    var text := a + sp + b + sp + c;
    assert ReplaceCommas(a + sep + b + sep + c) == text;
    var empty: string := [];
    assert text == empty + a + (sp + b + (sp + c + empty));
    FieldsOfSpacedWord(sp, c, empty);
    assert Fields(empty) == [];
    FieldsOfSpacedWord(sp, b, sp + c + empty);
    FieldsOfSpacedWord(empty, a, sp + b + (sp + c + empty));
  }

  /** The sample input `1, x, 3` holds three tokens. */
  lemma SampleTokens()
    ensures Tokens("1, x, 3") == ["1", "x", "3"]
  {
    CommaSeparatedTokens("1", "x", "3");
    assert "1" + ", " + "x" + ", " + "3" == "1, x, 3";
  }

  /** Spaces, then a word ending at a space or at the end of the text. */
  lemma FieldsOfSpacedWord(sp: string, w: string, rest: string)
    requires forall i :: 0 <= i < |sp| ==> IsSpace(sp[i])
    requires IsWord(w)
    requires rest == [] || IsSpace(rest[0])
    ensures Fields(sp + w + rest) == [w] + Fields(rest)
  {
    assert sp + w + rest == sp + (w + rest);
    SpacesSkipped(sp, w + rest);
    FieldsOfWordThen(w, rest);
  }

  /** Leading spaces produce no token. */
  lemma {:induction false} SpacesSkipped(sp: string, rest: string)
    requires forall i :: 0 <= i < |sp| ==> IsSpace(sp[i])
    ensures Fields(sp + rest) == Fields(rest)
  {
    if sp == [] {
      assert sp + rest == rest;
    } else {
      assert (sp + rest)[1..] == sp[1..] + rest;
      SpacesSkipped(sp[1..], rest);
    }
  }

  /** In `a, b, c` with `a` a number and `b` not, the message names `b`
      and nothing after it is looked at. */
  lemma SecondTokenRejected(form: Form, a: string, b: string, c: string, parse: string -> Option<real>)
    requires IsWord(a) && IsWord(b) && IsWord(c)
    requires ',' !in a && ',' !in b && ',' !in c
    requires Submitted(form) == Some(a + ", " + b + ", " + c)
    requires parse(a).Some? && parse(b).None?
    ensures var tokens := FieldTokens(form);
      |tokens| == 3 && FirstInvalid(tokens, parse) == 1 && tokens[1] == b
  {
    CommaSeparatedTokens(a, b, c);
    var tokens := FieldTokens(form);
    assert tokens[1..] == [b, c];
  }
}
