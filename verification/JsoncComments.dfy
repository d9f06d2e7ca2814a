/**
 Stripping comments from JSONC (scripts/audit-transform-wire-parity.py).

 StripFrom follows the source's character loop. The independent reference is a token grammar:
 strings, line comments, block comments and single other characters.
 */
module JsoncComments {
  import opened Wrappers

  predicate IsNewline(c: char) {
    c == '\r' || c == '\n'
  }

  // What is left after a line comment's text: it ends before the line break.
  function DropLine(s: string): (r: string)
    ensures |r| <= |s|
  {
    if s == [] || IsNewline(s[0]) then s else DropLine(s[1..])
  }

  // What is left after a block comment's text and its terminator, if there is one.
  function DropBlock(s: string): (r: string)
    ensures |r| <= |s|
  {
    if |s| < 2 then [] else if s[0] == '*' && s[1] == '/' then s[2..] else DropBlock(s[1..])
  }

  predicate StartsWith(s: string, c: char, d: char) {
    2 <= |s| && s[0] == c && s[1] == d
  }

  function StripFrom(s: string, inString: bool, escaped: bool): string
    decreases |s|
  {
    if s == [] then []
    else if inString then
      if escaped then [s[0]] + StripFrom(s[1..], true, false)
      else if s[0] == '\\' then [s[0]] + StripFrom(s[1..], true, true)
      else [s[0]] + StripFrom(s[1..], s[0] != '"', false)
    else if s[0] == '"' then [s[0]] + StripFrom(s[1..], true, false)
    else if StartsWith(s, '/', '/') then StripFrom(DropLine(s[2..]), false, false)
    else if StartsWith(s, '/', '*') then StripFrom(DropBlock(s[2..]), false, false)
    else [s[0]] + StripFrom(s[1..], false, false)
  }

  function Strip(s: string): string {
    StripFrom(s, false, false)
  }

  method SkipLine(value: string, start: nat) returns (index: nat)
    requires start <= |value|
    ensures start <= index <= |value|
    ensures value[index..] == DropLine(value[start..])
  {
    index := start;
    while index < |value| && !IsNewline(value[index])
      invariant start <= index <= |value|
      invariant DropLine(value[index..]) == DropLine(value[start..])
    {
      assert value[index..][1..] == value[index + 1..];
      index := index + 1;
    }
  }

  method SkipBlock(value: string, start: nat) returns (index: nat)
    requires start <= |value|
    ensures start <= index <= |value|
    ensures value[index..] == DropBlock(value[start..])
  {
    index := start;
    while index + 1 < |value| && value[index..index + 2] != "*/"
      invariant start <= index <= |value|
      invariant DropBlock(value[index..]) == DropBlock(value[start..])
    {
      assert value[index..][1..] == value[index + 1..];
      assert value[index..index + 2] == [value[index], value[index + 1]];
      index := index + 1;
    }
    if index + 1 < |value| {
      assert value[index..index + 2][0] == '*' && value[index..index + 2][1] == '/';
      assert value[index..][2..] == value[index + 2..];
    }
    index := if |value| < index + 2 then |value| else index + 2;
  }

  method StripJsoncComments(value: string) returns (output: string)
    ensures output == Strip(value)
  {
    hide StripFrom;
    output := [];
    var index := 0;
    var inString, escaped := false, false;
    while index < |value|
      invariant index <= |value|
      invariant escaped ==> inString
      invariant output + StripFrom(value[index..], inString, escaped) == Strip(value)
      decreases |value| - index
    {
      ghost var rest, before := value[index..], output;
      StripStep(rest, inString, escaped);
      var current := value[index];
      assert rest[0] == current && rest[1..] == value[index + 1..];
      if inString {
        output := output + [current];
        if escaped {
          escaped := false;
        } else if current == '\\' {
          escaped := true;
        } else if current == '"' {
          inString := false;
        }
        index := index + 1;
        ConcatAssociates(before, [current], StripFrom(value[index..], inString, escaped));
      } else if current == '"' {
        inString := true;
        output := output + [current];
        index := index + 1;
        ConcatAssociates(before, [current], StripFrom(value[index..], true, false));
      } else if current == '/' && index + 1 < |value| && value[index + 1] == '/' {
        assert rest[2..] == value[index + 2..];
        index := SkipLine(value, index + 2);
      } else if current == '/' && index + 1 < |value| && value[index + 1] == '*' {
        assert rest[2..] == value[index + 2..];
        index := SkipBlock(value, index + 2);
      } else {
        output := output + [current];
        index := index + 1;
        ConcatAssociates(before, [current], StripFrom(value[index..], false, false));
      }
    }
    StripOfNothing(inString, escaped);
    assert value[index..] == [] && output + [] == output;
  }

  // One iteration of the source's loop.
  lemma StripStep(s: string, inString: bool, escaped: bool)
    requires s != []
    ensures inString && escaped ==> StripFrom(s, inString, escaped) == [s[0]] + StripFrom(s[1..], true, false)
    ensures inString && !escaped && s[0] == '\\' ==>
              StripFrom(s, inString, escaped) == [s[0]] + StripFrom(s[1..], true, true)
    ensures inString && !escaped && s[0] != '\\' ==>
              StripFrom(s, inString, escaped) == [s[0]] + StripFrom(s[1..], s[0] != '"', false)
    ensures !inString && s[0] == '"' ==> StripFrom(s, inString, escaped) == [s[0]] + StripFrom(s[1..], true, false)
    ensures !inString && StartsWith(s, '/', '/') ==>
              StripFrom(s, inString, escaped) == StripFrom(DropLine(s[2..]), false, false)
    ensures !inString && StartsWith(s, '/', '*') ==>
              StripFrom(s, inString, escaped) == StripFrom(DropBlock(s[2..]), false, false)
    ensures !inString && s[0] != '"' && !StartsWith(s, '/', '/') && !StartsWith(s, '/', '*') ==>
              StripFrom(s, inString, escaped) == [s[0]] + StripFrom(s[1..], false, false)
  {
  }

  lemma StripOfNothing(inString: bool, escaped: bool)
    ensures StripFrom([], inString, escaped) == []
  {
  }

  // ----- Token grammar -----

  // A backslash makes the next character, whatever it is, part of the string; the escapes of
  // section 7 of RFC 8259 are among these.
  datatype StringChar = Plain(c: char) | Escape(c: char)

  datatype Token =
    | Str(body: seq<StringChar>)
    | LineComment(text: string)
    | BlockComment(text: string)
    | Other(c: char)
    | UnclosedStr(body: seq<StringChar>, danglingEscape: bool)
    | UnclosedBlock(text: string)
  {
    predicate IsComment() {
      LineComment? || BlockComment? || UnclosedBlock?
    }
  }

  function BodyText(body: seq<StringChar>): string {
    if body == [] then []
    else CharText(body[0]) + BodyText(body[1..])
  }

  function Text(t: Token): string {
    match t
    case Str(body) => ['"'] + (BodyText(body) + ['"'])
    case LineComment(text) => ['/', '/'] + text
    case BlockComment(text) => ['/', '*'] + (text + ['*', '/'])
    case Other(c) => [c]
    case UnclosedStr(body, dangling) => ['"'] + (BodyText(body) + (if dangling then ['\\'] else []))
    case UnclosedBlock(text) => ['/', '*'] + text
  }

  function Render(tokens: seq<Token>): string {
    if tokens == [] then [] else Text(tokens[0]) + Render(tokens[1..])
  }

  function WithoutComments(tokens: seq<Token>): seq<Token> {
    if tokens == [] then []
    else if tokens[0].IsComment() then WithoutComments(tokens[1..])
    else [tokens[0]] + WithoutComments(tokens[1..])
  }

  ghost predicate BodyOk(body: seq<StringChar>) {
    forall i :: 0 <= i < |body| && body[i].Plain? ==> body[i].c != '"' && body[i].c != '\\'
  }

  ghost predicate NoTerminator(text: string) {
    forall i :: 0 <= i < |text| - 1 ==> !(text[i] == '*' && text[i + 1] == '/')
  }

  // Whether a token can stand before some text: unclosed tokens come last, a line comment runs to
  // the end of its line, and a character that would open a string or a comment is not on its own.
  ghost predicate Fits(t: Token, following: string) {
    match t
    case Str(body) => BodyOk(body)
    case LineComment(text) => '\r' !in text && '\n' !in text && (following == [] || following[0] in ['\r', '\n'])
    case BlockComment(text) => NoTerminator(text)
    case Other(c) => c != '"' && (c == '/' ==> following == [] || following[0] !in ['/', '*'])
    case UnclosedStr(body, _) => BodyOk(body) && following == []
    case UnclosedBlock(text) => NoTerminator(text) && following == []
  }

  ghost predicate WellFormed(tokens: seq<Token>) {
    tokens == [] || (WellFormed(tokens[1..]) && Fits(tokens[0], Render(tokens[1..])))
  }

  // ----- Correctness on token streams -----

  function CharText(c: StringChar): string {
    if c.Plain? then [c.c] else ['\\', c.c]
  }

  lemma StripStringChar(c: StringChar, s: string)
    requires c.Plain? ==> c.c != '"' && c.c != '\\'
    ensures StripFrom(CharText(c) + s, true, false) == CharText(c) + StripFrom(s, true, false)
  {
    var all := CharText(c) + s;
    if c.Plain? {
      assert all[1..] == s;
    } else {
      assert all[1..] == [c.c] + s;
      assert all[1..][1..] == s;
      assert StripFrom(all[1..], true, true) == [c.c] + StripFrom(s, true, false);
    }
  }

  lemma {:induction false} StripBody(body: seq<StringChar>, rest: string)
    requires BodyOk(body)
    ensures StripFrom(BodyText(body) + rest, true, false) == BodyText(body) + StripFrom(rest, true, false)
  {
    hide StripFrom, CharText;
    if body == [] {
      assert BodyText(body) + rest == rest;
    } else {
      var head, tail := CharText(body[0]), BodyText(body[1..]);
      StripBody(body[1..], rest);
      StripStringChar(body[0], tail + rest);
      assert head + tail + rest == head + (tail + rest);
      assert head + tail + StripFrom(rest, true, false) == head + (tail + StripFrom(rest, true, false));
    }
  }

  lemma {:induction false} DropLineText(text: string, rest: string)
    requires '\r' !in text && '\n' !in text && (rest == [] || rest[0] in ['\r', '\n'])
    ensures DropLine(text + rest) == rest
  {
    if text == [] {
      assert text + rest == rest;
    } else {
      assert (text + rest)[1..] == text[1..] + rest;
      DropLineText(text[1..], rest);
    }
  }

  lemma {:induction false} DropBlockText(text: string, rest: string)
    requires NoTerminator(text)
    ensures DropBlock(text + (['*', '/'] + rest)) == rest
  {
    var s := text + (['*', '/'] + rest);
    if text == [] {
      assert s == ['*', '/'] + rest;
      assert s[2..] == rest;
    } else {
      assert s[1..] == text[1..] + (['*', '/'] + rest);
      assert !(s[0] == '*' && s[1] == '/') by {
        if 1 < |text| { assert s[1] == text[1]; }
      }
      DropBlockText(text[1..], rest);
    }
  }

  lemma {:induction false} DropUnclosedBlock(text: string)
    requires NoTerminator(text)
    ensures DropBlock(text) == []
  {
    if 2 <= |text| {
      DropUnclosedBlock(text[1..]);
    }
  }

  lemma StripStr(body: seq<StringChar>, rest: string)
    requires BodyOk(body)
    ensures Strip(Text(Str(body)) + rest) == Text(Str(body)) + Strip(rest)
  {
    var s, b := Text(Str(body)) + rest, BodyText(body);
    assert s[0] == '"' && s[1..] == b + (['"'] + rest);
    assert Strip(s) == ['"'] + StripFrom(s[1..], true, false);
    assert StripFrom(['"'] + rest, true, false) == ['"'] + Strip(rest) by {
      assert (['"'] + rest)[1..] == rest;
    }
    hide StripFrom;
    StripBody(body, ['"'] + rest);
    assert ['"'] + (b + (['"'] + Strip(rest))) == ['"'] + (b + ['"']) + Strip(rest);
  }

  lemma StripLineComment(text: string, rest: string)
    requires '\r' !in text && '\n' !in text && (rest == [] || rest[0] in ['\r', '\n'])
    ensures Strip(Text(LineComment(text)) + rest) == Strip(rest)
  {
    var s := Text(LineComment(text)) + rest;
    assert StartsWith(s, '/', '/') && s[2..] == text + rest;
    DropLineText(text, rest);
    assert Strip(s) == StripFrom(DropLine(s[2..]), false, false);
  }

  lemma StripBlockComment(text: string, rest: string)
    requires NoTerminator(text)
    ensures Strip(Text(BlockComment(text)) + rest) == Strip(rest)
  {
    var s := Text(BlockComment(text)) + rest;
    assert StartsWith(s, '/', '*') && s[2..] == text + (['*', '/'] + rest);
    DropBlockText(text, rest);
    assert Strip(s) == StripFrom(DropBlock(s[2..]), false, false);
  }

  lemma StripLastToken(t: Token)
    requires t.UnclosedStr? || t.UnclosedBlock?
    requires t.UnclosedStr? ==> BodyOk(t.body)
    requires t.UnclosedBlock? ==> NoTerminator(t.text)
    ensures Strip(Text(t)) == if t.UnclosedStr? then Text(t) else []
  {
    var s := Text(t);
    match t
    case UnclosedStr(body, dangling) =>
      var tail := if dangling then ['\\'] else [];
      assert s[1..] == BodyText(body) + tail;
      StripBody(body, tail);
      assert StripFrom(tail, true, false) == tail;
    case UnclosedBlock(text) =>
      assert StartsWith(s, '/', '*') && s[2..] == text;
      DropUnclosedBlock(text);
      assert Strip(s) == StripFrom(DropBlock(text), false, false);
  }

  lemma StripToken(t: Token, following: string)
    requires Fits(t, following)
    ensures Strip(Text(t) + following) == if t.IsComment() then Strip(following) else Text(t) + Strip(following)
  {
    match t
    case Str(body) => StripStr(body, following);
    case LineComment(text) => StripLineComment(text, following);
    case BlockComment(text) => StripBlockComment(text, following);
    case Other(c) => StripOther(c, following);
    case UnclosedStr(_, _) =>
      assert Text(t) + following == Text(t);
      StripLastToken(t);
    case UnclosedBlock(_) =>
      assert Text(t) + following == Text(t);
      StripLastToken(t);
  }

  // The output is the concatenation of the tokens that are not comments.
  lemma {:induction false} StripKeepsTheRest(tokens: seq<Token>)
    requires WellFormed(tokens)
    ensures Strip(Render(tokens)) == Render(WithoutComments(tokens))
  {
    if tokens != [] {
      var t, rest := tokens[0], tokens[1..];
      StripKeepsTheRest(rest);
      StripToken(t, Render(rest));
      assert ([t] + WithoutComments(rest))[1..] == WithoutComments(rest);
    }
  }

  lemma StripOther(c: char, rest: string)
    requires c != '"' && (c == '/' ==> rest == [] || rest[0] !in ['/', '*'])
    ensures Strip([c] + rest) == [c] + Strip(rest)
  {
    var s := [c] + rest;
    assert s[1..] == rest && (1 < |s| ==> s[1] == rest[0]);
  }

  // ----- Every input is a token stream -----

  // Splits a string's contents at its closing quote.
  lemma {:induction false} ScanString(s: string)
    returns (body: seq<StringChar>, closed: bool, dangling: bool, rest: string)
    ensures BodyOk(body)
    ensures s == BodyText(body) + (if closed then ['"'] + rest else if dangling then ['\\'] else [])
    ensures !closed ==> rest == []
  {
    if s == [] {
      body, closed, dangling, rest := [], false, false, [];
    } else if s[0] == '"' {
      body, closed, dangling, rest := [], true, false, s[1..];
    } else if s[0] == '\\' && |s| == 1 {
      body, closed, dangling, rest := [], false, true, [];
    } else {
      var c := if s[0] == '\\' then Escape(s[1]) else Plain(s[0]);
      var tail;
      tail, closed, dangling, rest := ScanString(s[|CharText(c)|..]);
      body := [c] + tail;
      assert body[1..] == tail;
      assert s == CharText(c) + s[|CharText(c)|..];
    }
  }

  lemma {:induction false} ScanLine(s: string) returns (text: string, rest: string)
    ensures s == text + rest
    ensures '\r' !in text && '\n' !in text && (rest == [] || rest[0] in ['\r', '\n'])
  {
    text, rest := [], s;
    while rest != [] && rest[0] !in ['\r', '\n']
      invariant s == text + rest
      invariant '\r' !in text && '\n' !in text
      decreases |rest|
    {
      text, rest := text + [rest[0]], rest[1..];
    }
  }

  lemma {:induction false} ScanBlock(s: string) returns (text: string, closed: bool, rest: string)
    ensures NoTerminator(text)
    ensures s == text + (if closed then ['*', '/'] + rest else [])
    ensures !closed ==> rest == []
  {
    if |s| < 2 {
      text, closed, rest := s, false, [];
    } else if StartsWith(s, '*', '/') {
      text, closed, rest := [], true, s[2..];
    } else {
      var tail;
      tail, closed, rest := ScanBlock(s[1..]);
      text := [s[0]] + tail;
      forall i | 0 <= i < |text| - 1
        ensures !(text[i] == '*' && text[i + 1] == '/')
      {
        if i == 0 { assert text[1] == s[1]; } else { assert text[i] == tail[i - 1] && text[i + 1] == tail[i]; }
      }
    }
  }

  lemma FirstToken(s: string) returns (t: Token, rest: string)
    requires s != []
    ensures s == Text(t) + rest && |rest| < |s| && Fits(t, rest)
  {
    if s[0] == '"' {
      var body, closed, dangling;
      body, closed, dangling, rest := ScanString(s[1..]);
      t := if closed then Str(body) else UnclosedStr(body, dangling);
    } else if StartsWith(s, '/', '/') {
      var text;
      text, rest := ScanLine(s[2..]);
      t := LineComment(text);
    } else if StartsWith(s, '/', '*') {
      var text, closed;
      text, closed, rest := ScanBlock(s[2..]);
      t := if closed then BlockComment(text) else UnclosedBlock(text);
    } else {
      t, rest := Other(s[0]), s[1..];
    }
  }

  // Together with StripKeepsTheRest this settles the result on every input, closed or not.
  lemma {:induction false} Tokenize(s: string) returns (tokens: seq<Token>)
    ensures WellFormed(tokens) && Render(tokens) == s
    decreases |s|
  {
    tokens := [];
    if s != [] {
      var t, rest := FirstToken(s);
      var tail := Tokenize(rest);
      tokens := [t] + tail;
      assert tokens[1..] == tail;
    }
  }

  // ----- Consequences for every input -----

  lemma {:induction false} KeepsAllOrLoses(tokens: seq<Token>)
    ensures |Render(WithoutComments(tokens))| <= |Render(tokens)|
    ensures |Render(WithoutComments(tokens))| == |Render(tokens)| ==>
              forall i :: 0 <= i < |tokens| ==> !tokens[i].IsComment()
    ensures (forall i :: 0 <= i < |tokens| ==> !tokens[i].IsComment()) ==> WithoutComments(tokens) == tokens
  {
    if tokens != [] {
      var t, rest := tokens[0], tokens[1..];
      KeepsAllOrLoses(rest);
      assert ([t] + WithoutComments(rest))[1..] == WithoutComments(rest);
      assert forall i :: 0 <= i < |rest| ==> rest[i] == tokens[i + 1];
    }
  }

  // Dropping the comments of a well-formed stream leaves a well-formed stream: no two characters
  // that were apart can come together to open a comment.
  lemma {:induction false} WithoutCommentsIsWellFormed(tokens: seq<Token>)
    requires WellFormed(tokens)
    ensures WellFormed(WithoutComments(tokens))
    ensures WithoutComments(WithoutComments(tokens)) == WithoutComments(tokens)
  {
    if tokens != [] {
      var t, rest := tokens[0], tokens[1..];
      var kept := WithoutComments(rest);
      WithoutCommentsIsWellFormed(rest);
      KeepsAllOrLoses(rest);
      if !t.IsComment() {
        assert ([t] + kept)[1..] == kept;
        if t == Other('/') && rest != [] {
          assert Render(rest)[0] == Text(rest[0])[0];
          assert !rest[0].IsComment();
          assert kept[0] == rest[0];
          assert Render(kept)[0] == Text(rest[0])[0];
        }
      }
    }
  }

  lemma StrippingTwiceIsStrippingOnce(s: string)
    ensures Strip(Strip(s)) == Strip(s)
  {
    var tokens := Tokenize(s);
    StripKeepsTheRest(tokens);
    WithoutCommentsIsWellFormed(tokens);
    StripKeepsTheRest(WithoutComments(tokens));
  }

  ghost predicate Subsequence(a: string, b: string) {
    a == [] || (b != [] && (Subsequence(a, b[1..]) || (a[0] == b[0] && Subsequence(a[1..], b[1..]))))
  }

  lemma {:induction false} SubsequenceOfTail(a: string, prefix: string, b: string)
    requires Subsequence(a, b)
    ensures Subsequence(a, prefix + b)
  {
    if prefix == [] {
      assert prefix + b == b;
    } else {
      assert (prefix + b)[1..] == prefix[1..] + b;
      SubsequenceOfTail(a, prefix[1..], b);
    }
  }

  lemma {:induction false} SubsequenceUnderPrefix(prefix: string, a: string, b: string)
    requires Subsequence(a, b)
    ensures Subsequence(prefix + a, prefix + b)
  {
    if prefix == [] {
      assert prefix + a == a && prefix + b == b;
    } else {
      assert (prefix + a)[1..] == prefix[1..] + a && (prefix + b)[1..] == prefix[1..] + b;
      SubsequenceUnderPrefix(prefix[1..], a, b);
    }
  }

  lemma {:induction false} KeptIsSubsequence(tokens: seq<Token>)
    ensures Subsequence(Render(WithoutComments(tokens)), Render(tokens))
  {
    if tokens != [] {
      var t, rest := tokens[0], tokens[1..];
      KeptIsSubsequence(rest);
      if t.IsComment() {
        SubsequenceOfTail(Render(WithoutComments(rest)), Text(t), Render(rest));
      } else {
        assert ([t] + WithoutComments(rest))[1..] == WithoutComments(rest);
        SubsequenceUnderPrefix(Text(t), Render(WithoutComments(rest)), Render(rest));
      }
    }
  }

  // The output keeps characters of the input in order, and is the input itself exactly when the
  // input has no comment.
  lemma StripIsSubsequence(s: string)
    ensures Subsequence(Strip(s), s)
    ensures exists at: seq<nat> :: IsPickedAt(Strip(s), s, at)
  {
    var tokens := Tokenize(s);
    StripKeepsTheRest(tokens);
    KeptIsSubsequence(tokens);
    var at := PositionsOf(Strip(s), s);
  }

  // a consists of the characters of b at these positions, in order.
  ghost predicate IsPickedAt(a: string, b: string, at: seq<nat>) {
    && |at| == |a|
    && (forall i :: 0 <= i < |at| ==> at[i] < |b| && a[i] == b[at[i]])
    && (forall i, j :: 0 <= i < j < |at| ==> at[i] < at[j])
  }

  lemma {:induction false} PositionsOf(a: string, b: string) returns (at: seq<nat>)
    requires Subsequence(a, b)
    ensures IsPickedAt(a, b, at)
    decreases |b|
  {
    at := [];
    if a != [] {
      if Subsequence(a, b[1..]) {
        var later := PositionsOf(a, b[1..]);
        at := seq(|later|, i requires 0 <= i < |later| => later[i] + 1);
      } else {
        var later := PositionsOf(a[1..], b[1..]);
        at := [0] + seq(|later|, i requires 0 <= i < |later| => later[i] + 1);
        assert forall i :: 0 < i < |at| ==> at[i] == later[i - 1] + 1 && a[i] == a[1..][i - 1];
      }
    }
  }

  lemma StripChangesOnlyComments(tokens: seq<Token>)
    requires WellFormed(tokens)
    ensures Strip(Render(tokens)) == Render(tokens) <==> forall i :: 0 <= i < |tokens| ==> !tokens[i].IsComment()
  {
    StripKeepsTheRest(tokens);
    KeepsAllOrLoses(tokens);
  }
}
