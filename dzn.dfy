/**
  The line-oriented MiniZinc data (DZN) reader: comments are removed, the
  text is cut into `key = value;` statements, and each value is stored as a
  list (the flat payload of array2d(...) or the items of [...]) or as a
  scalar. The regular expressions of the source are written out with plain
  string operations.
*/
module Dzn {
  import opened Wrappers
  import opened Text
  import opened PyValues

  /** t from its first newline on, or empty when t has none. */
  function FromNewline(t: string): (r: string)
    ensures |r| <= |t| && r == t[|t| - |r|..]
    ensures r == [] || r[0] == '\n'
    ensures '\n' !in t[..|t| - |r|]
    decreases |t|
  {
    if t == [] || t[0] == '\n' then t else FromNewline(t[1..])
  }

  /** re.sub(r"%[^\n]*", "", t): each comment, from % up to but not
      including the end of its line, is removed. */
  function StripComments(t: string): string
    decreases |t|
  {
    if t == [] then []
    else if t[0] == '%' then StripComments(FromNewline(t[1..]))
    else [t[0]] + StripComments(t[1..])
  }

  /** No % survives comment removal. */
  lemma {:induction false} CommentsRemoved(t: string)
    ensures '%' !in StripComments(t)
    decreases |t|
  {
    if t != [] {
      if t[0] == '%' {
        CommentsRemoved(FromNewline(t[1..]));
      } else {
        CommentsRemoved(t[1..]);
      }
    }
  }

  /** Text without comments is left as it is. */
  lemma {:induction false} NoCommentKept(t: string)
    requires '%' !in t
    ensures StripComments(t) == t
    decreases |t|
  {
    if t != [] {
      NoCommentKept(t[1..]);
      assert [t[0]] + t[1..] == t;
    }
  }

  lemma {:induction false} FromNewlineSkips(c: string, b: string)
    requires '\n' !in c
    ensures FromNewline(c + "\n" + b) == "\n" + b
    decreases |c|
  {
    var t := c + "\n" + b;
    if c == [] {
      assert t[0] == '\n';
    } else {
      assert t[0] == c[0] && t[0] != '\n';
      assert t[1..] == c[1..] + "\n" + b;
      FromNewlineSkips(c[1..], b);
    }
  }

  /** A comment runs to the end of its line: the comment goes, the line
      break and everything after it stay. */
  lemma {:induction false} CommentEndsAtNewline(a: string, c: string, b: string)
    requires '%' !in a && '\n' !in c
    ensures StripComments(a + "%" + c + "\n" + b) == a + "\n" + StripComments(b)
    decreases |a|
  {
    var t := a + "%" + c + "\n" + b;
    if a == [] {
      assert t[1..] == c + "\n" + b;
      FromNewlineSkips(c, b);
      assert StripComments("\n" + b) == "\n" + StripComments(("\n" + b)[1..]);
      assert ("\n" + b)[1..] == b;
    } else {
      assert t[1..] == a[1..] + "%" + c + "\n" + b;
      CommentEndsAtNewline(a[1..], c, b);
      assert [a[0]] + a[1..] == a;
    }
  }

  /** The partition of s at its first c: s == before + [c] + after with no c
      in before; None exactly when s has no c. */
  function Partition(s: string, c: char): (r: Option<(string, string)>)
    ensures r.None? <==> c !in s
    ensures r.Some? ==> s == r.value.0 + [c] + r.value.1 && c !in r.value.0
    decreases |s|
  {
    if s == [] then None
    else if s[0] == c then Some(([], s[1..]))
    else match Partition(s[1..], c)
      case None => None
      case Some(p) => Some(([s[0]] + p.0, p.1))
  }

  /** Partition finds the first separator. */
  lemma {:induction false} PartitionAt(a: string, c: char, x: string)
    requires c !in a
    ensures Partition(a + [c] + x, c) == Some((a, x))
    decreases |a|
  {
    var s := a + [c] + x;
    if a == [] {
      assert s[1..] == x;
    } else {
      assert s[0] == a[0] && s[1..] == a[1..] + [c] + x;
      PartitionAt(a[1..], c, x);
      assert [a[0]] + a[1..] == a;
    }
  }

  /** [s.strip() for s in text.split(";") if s.strip()] */
  function Statements(text: string): seq<string> {
    NonBlankStripped(Split(text, ';'))
  }

  /** re.match(r"array2d\s*\(\s*[^,]+,\s*[^,]+,\s*\[(.*)\]\s*\)\s*$", val,
      re.IGNORECASE | re.DOTALL): the text between the bracket that follows
      the second comma and the bracket that closes before the final
      parenthesis. Both dimensions must be non-empty and comma-free; their
      text is otherwise ignored. */
  function MatchArray2d(val: string): Option<string> {
    if |val| < 7 || Lower(val[..7]) != "array2d" then None
    else
      var call := TrimLeft(val[7..]);
      if call == [] || call[0] != '(' then None
      else MatchArgs(call[1..])
  }

  /** The part of the array2d pattern after `(`: two non-empty comma-free
      dimensions, each followed by a comma, then the payload. */
  function MatchArgs(args: string): Option<string> {
    match Partition(args, ',')
    case None => None
    case Some(p1) =>
      if p1.0 == [] then None
      else match Partition(p1.1, ',')
        case None => None
        case Some(p2) => if p2.0 == [] then None else MatchPayload(p2.1)
  }

  /** The part of the array2d pattern after the second comma: blank, `[`,
      the payload, `]`, blank, `)`, blank. */
  function MatchPayload(rest: string): Option<string> {
    var open := TrimLeft(rest);
    if open == [] || open[0] != '[' then None
    else MatchClose(open[1..])
  }

  /** The payload runs up to the last `]` that only blanks and a final `)`
      follow. */
  function MatchClose(q: string): Option<string> {
    var t := TrimRight(q);
    if t == [] || t[|t| - 1] != ')' then None
    else
      var u := TrimRight(t[..|t| - 1]);
      if u == [] || u[|u| - 1] != ']' then None
      else Some(u[..|u| - 1])
  }

  /** re.match(r"\[\s*(.*)\s*\]\s*$", val, re.DOTALL): what lies between the
      opening bracket (and the whitespace after it) and the last bracket. */
  function MatchList(val: string): Option<string> {
    if val == [] || val[0] != '[' then None
    else
      var t := TrimRight(val[1..]);
      if t == [] || t[|t| - 1] != ']' then None
      else Some(TrimLeft(t[..|t| - 1]))
  }

  /** A token or scalar: true/false in any letter case first, then int(t),
      otherwise the raw text. */
  function Classify(t: string): Value {
    var l := Lower(t);
    if l == "true" || l == "false" then VBool(l == "true")
    else match PyInt(VStr(t))
      case Some(n) => VInt(n)
      case None => VStr(t)
  }

  /** The tokens of a list body: whitespace runs collapsed to one space,
      split on commas, each piece stripped, blank pieces dropped. */
  function Tokens(items: string): seq<string> {
    NonBlankStripped(Split(Collapse(Strip(items)), ','))
  }

  /** One value per token, in order. */
  function ClassifyAll(ts: seq<string>): (r: seq<Value>) {
    seq(|ts|, k requires 0 <= k < |ts| => Classify(ts[k]))
  }

  /** The values of a list body. */
  function ArrayValues(items: string): seq<Value> {
    ClassifyAll(Tokens(items))
  }

  /** _split_array_values: classify each token of the list body in turn. */
  method SplitArrayValues(itemsStr: string) returns (out: seq<Value>)
    ensures out == ArrayValues(itemsStr)
    ensures |out| == |Where(Split(Collapse(Strip(itemsStr)), ','), NonBlank)|
  {
    var tokens := Tokens(itemsStr);
    out := [];
    assert ClassifyAll(tokens)[..0] == [];
    for i := 0 to |tokens|
      invariant out == ClassifyAll(tokens)[..i]
    {
      var v := Classify(tokens[i]);
      ClassifyAllNext(tokens, i);
      out := out + [v];
    }
    assert ClassifyAll(tokens)[..|tokens|] == ClassifyAll(tokens);
    TokensCount(itemsStr);
  }

  /** One token per piece between commas that is not blank. */
  lemma TokensCount(items: string)
    ensures |Tokens(items)| == |Where(Split(Collapse(Strip(items)), ','), NonBlank)|
  {
    NonBlankStrippedCount(Split(Collapse(Strip(items)), ','));
  }

  /** One token per piece between commas that is not blank; each token is
      non-empty and has no whitespace at either end. */
  lemma TokensClean(items: string)
    ensures |Tokens(items)| == |Where(Split(Collapse(Strip(items)), ','), NonBlank)|
    ensures forall k :: 0 <= k < |Tokens(items)| ==> Tokens(items)[k] != [] && Trimmed(Tokens(items)[k])
  {
    TokensCount(items);
    NonBlankStrippedClean(Split(Collapse(Strip(items)), ','));
  }

  lemma ClassifyAllNext(ts: seq<string>, i: nat)
    requires i < |ts|
    ensures ClassifyAll(ts)[..i + 1] == ClassifyAll(ts)[..i] + [Classify(ts[i])]
  {
    var c := ClassifyAll(ts);
    assert c[..i + 1] == c[..i] + [c[i]];
  }

  /** Text without whitespace is trimmed, and neither stripping nor
      collapsing whitespace changes it. */
  lemma NoSpaceUnchanged(s: string)
    requires NoSpace(s)
    ensures Trimmed(s) && Strip(s) == s && Collapse(s) == s
  {
    if s != [] {
      assert !IsSpace(s[0]) && !IsSpace(s[|s| - 1]);
    }
  }

  /** A list body written the plain way, tokens joined by commas with no
      whitespace, reads back as those tokens. */
  lemma TokensOfJoin(ts: seq<string>)
    requires |ts| >= 1
    requires forall k :: 0 <= k < |ts| ==> ts[k] != [] && NoSpace(ts[k]) && ',' !in ts[k]
    ensures Tokens(Join(ts, ',')) == ts
  {
    var s := Join(ts, ',');
    JoinNoSpace(ts, ',');
    NoSpaceUnchanged(s);
    SplitJoin(ts, ',');
    forall k | 0 <= k < |ts| ensures ts[k] != [] && Trimmed(ts[k]) {
      NoSpaceUnchanged(ts[k]);
    }
    NonBlankStrippedKeepsClean(ts);
  }

  /** `[` + blank + body + `]` + blank, where body does not start with
      whitespace: the shape the list pattern accepts. */
  predicate ListForm(val: string, w1: string, body: string, w2: string) {
    && Blank(w1) && Blank(w2) && (body == [] || !IsSpace(body[0]))
    && val == "[" + w1 + body + "]" + w2
  }

  lemma MatchListAccepts(val: string, w1: string, body: string, w2: string)
    requires ListForm(val, w1, body, w2)
    ensures MatchList(val) == Some(body)
  {
    var inner := w1 + body;
    assert val[1..] == inner + "]" + w2;
    TrimRightBlankSuffix(inner + "]", w2);
    var t := TrimRight(val[1..]);
    assert t[..|t| - 1] == inner;
    TrimLeftBlankPrefix(w1, body);
  }

  /** Whatever the list pattern accepts has the ListForm shape. */
  lemma MatchListShape(val: string) returns (w1: string, w2: string)
    requires MatchList(val).Some?
    ensures ListForm(val, w1, MatchList(val).value, w2)
  {
    var v1 := val[1..];
    OpenBracket(val);
    var inner;
    inner, w2 := PeelRight(v1, ']');
    var body := TrimLeft(inner);
    assert MatchList(val) == Some(body);
    TrimLeftSplit(inner);
    w1 := inner[..|inner| - |body|];
    ListAssemble(val, v1, inner, w1, body, w2);
  }

  lemma OpenBracket(val: string)
    requires val != [] && val[0] == '['
    ensures val == "[" + val[1..]
  {
  }

  lemma ListAssemble(val: string, v1: string, inner: string, w1: string, body: string, w2: string)
    requires val == "[" + v1 && v1 == inner + [']'] + w2 && inner == w1 + body
    ensures val == "[" + w1 + body + "]" + w2
  {
  }

  /** The list pattern yields body exactly when the value is `[`, blank,
      body, `]` and blank, with body not starting with whitespace. */
  lemma MatchListIff(val: string, body: string)
    ensures MatchList(val) == Some(body) <==> exists w1, w2 :: ListForm(val, w1, body, w2)
  {
    if MatchList(val) == Some(body) {
      var w1, w2 := MatchListShape(val);
    }
    if exists w1, w2 :: ListForm(val, w1, body, w2) {
      var w1, w2 :| ListForm(val, w1, body, w2);
      MatchListAccepts(val, w1, body, w2);
    }
  }

  /** The end of an array2d value: the payload, `]`, blank, `)`, blank. */
  predicate CloseForm(q: string, body: string, w3: string, w4: string) {
    Blank(w3) && Blank(w4) && q == body + "]" + w3 + ")" + w4
  }

  lemma MatchCloseAccepts(q: string, body: string, w3: string, w4: string)
    requires CloseForm(q, body, w3, w4)
    ensures MatchClose(q) == Some(body)
  {
    var u := body + "]";
    var t := u + w3 + ")";
    TrimRightBlankSuffix(t, w4);
    assert t[..|t| - 1] == u + w3;
    TrimRightBlankSuffix(u, w3);
    assert u[..|u| - 1] == body;
  }

  lemma MatchCloseShape(q: string) returns (w3: string, w4: string)
    requires MatchClose(q).Some?
    ensures CloseForm(q, MatchClose(q).value, w3, w4)
  {
    var tt, body;
    tt, w4 := PeelRight(q, ')');
    body, w3 := PeelRight(tt, ']');
    assert MatchClose(q) == Some(body);
    CloseAssemble(q, tt, body, w3, w4);
  }

  lemma CloseAssemble(q: string, tt: string, body: string, w3: string, w4: string)
    requires q == tt + [')'] + w4 && tt == body + [']'] + w3
    ensures q == body + "]" + w3 + ")" + w4
  {
  }

  lemma MatchPayloadAccepts(rest: string, w2: string, q: string, body: string, w3: string, w4: string)
    requires Blank(w2) && rest == w2 + ("[" + q) && CloseForm(q, body, w3, w4)
    ensures MatchPayload(rest) == Some(body)
  {
    TrimLeftBlankPrefix(w2, "[" + q);
    assert ("[" + q)[1..] == q;
    MatchCloseAccepts(q, body, w3, w4);
  }

  lemma MatchPayloadShape(rest: string) returns (w2: string, q: string, w3: string, w4: string)
    requires MatchPayload(rest).Some?
    ensures Blank(w2) && rest == w2 + ("[" + q) && CloseForm(q, MatchPayload(rest).value, w3, w4)
  {
    w2, q := PeelLeft(rest, '[');
    assert MatchPayload(rest) == MatchClose(q);
    w3, w4 := MatchCloseShape(q);
  }

  /** `array2d` in any letter case, blank, `(`, two non-empty comma-free
      dimensions each followed by a comma, blank, `[`, the payload, `]`,
      blank, `)`, blank: the shape the array2d pattern accepts. */
  predicate Array2dForm(val: string, name: string, w1: string, a: string, b: string, w2: string,
                        body: string, w3: string, w4: string) {
    && |name| == 7 && Lower(name) == "array2d"
    && Blank(w1) && Blank(w2) && Blank(w3) && Blank(w4)
    && a != [] && b != [] && ',' !in a && ',' !in b
    && val == name + (w1 + ("(" + (a + ("," + (b + ("," + (w2 + ("[" + (body + "]" + w3 + ")" + w4)))))))))
  }

  /** Two dimensions and what follows them, as the array2d pattern splits
      its arguments. */
  predicate ArgsForm(args: string, a: string, b: string, rest: string) {
    && a != [] && b != [] && ',' !in a && ',' !in b
    && args == a + [','] + (b + [','] + rest)
  }

  lemma MatchArgsAccepts(args: string, a: string, b: string, rest: string)
    requires ArgsForm(args, a, b, rest)
    ensures MatchArgs(args) == MatchPayload(rest)
  {
    PartitionAt(a, ',', b + [','] + rest);
    PartitionAt(b, ',', rest);
  }

  lemma MatchArgsShape(args: string) returns (a: string, b: string, rest: string)
    requires MatchArgs(args).Some?
    ensures ArgsForm(args, a, b, rest) && MatchArgs(args) == MatchPayload(rest)
  {
    var p1 := Partition(args, ',').value;
    var p2 := Partition(p1.1, ',').value;
    a, b, rest := p1.0, p2.0, p2.1;
  }

  lemma MatchArray2dAccepts(val: string, name: string, w1: string, a: string, b: string, w2: string,
                            body: string, w3: string, w4: string)
    requires Array2dForm(val, name, w1, a, b, w2, body, w3, w4)
    ensures MatchArray2d(val) == Some(body)
  {
    var q := body + "]" + w3 + ")" + w4;
    var rest := w2 + ("[" + q);
    var args := a + ("," + (b + ("," + rest)));
    Array2dHeadAccepts(val, name, w1, args);
    ArgsRegroup(a, b, rest);
    MatchArgsAccepts(args, a, b, rest);
    MatchPayloadAccepts(rest, w2, q, body, w3, w4);
  }

  /** Past the name, blank and `(`, the array2d pattern matches the
      arguments. */
  lemma Array2dHeadAccepts(val: string, name: string, w1: string, args: string)
    requires |name| == 7 && Lower(name) == "array2d" && Blank(w1)
    requires val == name + (w1 + ("(" + args))
    ensures MatchArray2d(val) == MatchArgs(args)
  {
    assert val[..7] == name && val[7..] == w1 + ("(" + args);
    TrimLeftBlankPrefix(w1, "(" + args);
    assert ("(" + args)[1..] == args;
  }

  lemma ArgsRegroup(a: string, b: string, rest: string)
    ensures a + ("," + (b + ("," + rest))) == a + [','] + (b + [','] + rest)
  {
  }

  /** The head of an array2d value: its name, blank, `(` and the arguments. */
  lemma Array2dHead(val: string) returns (w1: string, args: string)
    requires |val| >= 7 && TrimLeft(val[7..]) != [] && TrimLeft(val[7..])[0] == '('
    ensures Blank(w1) && val == val[..7] + (w1 + ("(" + args)) && args == TrimLeft(val[7..])[1..]
  {
    var rest0 := val[7..];
    var call := TrimLeft(rest0);
    TrimLeftSplit(rest0);
    w1 := rest0[..|rest0| - |call|];
    args := call[1..];
    OpenParen(call);
    assert val == val[..7] + rest0;
  }

  lemma OpenParen(call: string)
    requires call != [] && call[0] == '('
    ensures call == "(" + call[1..]
  {
  }

  lemma MatchArray2dShape(val: string)
    returns (name: string, w1: string, a: string, b: string, w2: string, w3: string, w4: string)
    requires MatchArray2d(val).Some?
    ensures Array2dForm(val, name, w1, a, b, w2, MatchArray2d(val).value, w3, w4)
  {
    name := val[..7];
    assert |name| == 7 && Lower(name) == "array2d";
    assert TrimLeft(val[7..]) != [] && TrimLeft(val[7..])[0] == '(';
    assert MatchArray2d(val) == MatchArgs(TrimLeft(val[7..])[1..]);
    var args, rest, q;
    w1, args := Array2dHead(val);
    a, b, rest := MatchArgsShape(args);
    w2, q, w3, w4 := MatchPayloadShape(rest);
    Array2dAssemble(val, name, w1, a, b, w2, MatchPayload(rest).value, w3, w4, args, rest, q);
  }

  /** Puts the pieces the array2d shape lemma finds back together. */
  lemma Array2dAssemble(val: string, name: string, w1: string, a: string, b: string, w2: string,
                        body: string, w3: string, w4: string, args: string, rest: string, q: string)
    requires |name| == 7 && Lower(name) == "array2d" && Blank(w1) && Blank(w2)
    requires val == name + (w1 + ("(" + args)) && ArgsForm(args, a, b, rest)
    requires rest == w2 + ("[" + q) && CloseForm(q, body, w3, w4)
    ensures Array2dForm(val, name, w1, a, b, w2, body, w3, w4)
  {
  }

  /** The array2d pattern yields body exactly when the value has the
      Array2dForm shape around body. */
  lemma MatchArray2dIff(val: string, body: string)
    ensures MatchArray2d(val) == Some(body) <==>
      exists name, w1, a, b, w2, w3, w4 :: Array2dForm(val, name, w1, a, b, w2, body, w3, w4)
  {
    if MatchArray2d(val) == Some(body) {
      var name, w1, a, b, w2, w3, w4 := MatchArray2dShape(val);
    }
    if exists name, w1, a, b, w2, w3, w4 :: Array2dForm(val, name, w1, a, b, w2, body, w3, w4) {
      var name, w1, a, b, w2, w3, w4 :| Array2dForm(val, name, w1, a, b, w2, body, w3, w4);
      MatchArray2dAccepts(val, name, w1, a, b, w2, body, w3, w4);
    }
  }

  /** The value `key = val` stores for an already stripped val. */
  function Interpret(val: string): Value {
    match MatchArray2d(val)
    case Some(flat) => VList(ArrayValues(flat))
    case None =>
      match MatchList(val)
      case Some(items) => VList(ArrayValues(items))
      case None => Classify(val)
  }

  /** A value whose first character is not a letter is neither an array2d
      call nor a boolean. */
  lemma NotArray2dOrBool(val: string)
    requires val != [] && !('a' <= val[0] <= 'z') && !('A' <= val[0] <= 'Z')
    ensures MatchArray2d(val).None?
    ensures Lower(val) != "true" && Lower(val) != "false"
  {
    assert Lower(val)[0] == val[0];
    if |val| >= 7 {
      assert Lower(val[..7])[0] == val[0];
    }
  }

  /** An integer written in decimal reads back as that integer. */
  lemma InterpretInt(i: int)
    ensures Interpret(ShowInt(i)) == VInt(i)
  {
    var s := ShowInt(i);
    ShowIntEnds(i);
    NotArray2dOrBool(s);
    InterpretScalar(s);
    ClassifyShowInt(i);
  }

  /** The decimal rendering of an integer is classified as that integer. */
  lemma ClassifyShowInt(i: int)
    ensures Classify(ShowInt(i)) == VInt(i)
  {
    var s := ShowInt(i);
    ShowIntEnds(i);
    NotArray2dOrBool(s);
    assert !IsSpace(s[0]) && !IsSpace(s[|s| - 1]);
    assert Strip(s) == s;
    ParseShowInt(i);
  }

  /** A value neither pattern matches is classified as a scalar. */
  lemma InterpretScalar(val: string)
    requires MatchArray2d(val).None? && (val == [] || val[0] != '[')
    ensures Interpret(val) == Classify(val)
  {
  }

  /** The decimal rendering of an integer starts with a sign or a digit and
      ends with a digit. */
  lemma ShowIntEnds(i: int)
    ensures var s := ShowInt(i); s != [] && (s[0] == '-' || IsDigit(s[0])) && IsDigit(s[|s| - 1])
  {
    var digits := if i < 0 then ShowNat(-i) else ShowNat(i);
    assert IsDigit(digits[0]) && IsDigit(digits[|digits| - 1]);
  }

  /** true and false in any letter case read as booleans. */
  lemma InterpretBool(t: string)
    requires Lower(t) == "true" || Lower(t) == "false"
    ensures Interpret(t) == VBool(Lower(t) == "true")
  {
    assert Lower(t)[0] == LowerChar(t[0]);
    assert t[0] != '[';
  }

  /** Tokens without whitespace or commas, joined by commas, read back as
      those tokens classified one by one. */
  lemma ArrayValuesOfJoin(ts: seq<string>)
    requires |ts| >= 1
    requires forall k :: 0 <= k < |ts| ==> ts[k] != [] && NoSpace(ts[k]) && ',' !in ts[k]
    ensures ArrayValues(Join(ts, ',')) == ClassifyAll(ts)
  {
    TokensOfJoin(ts);
  }

  /** A list literal around such a body is the list of its token values. */
  lemma InterpretList(val: string, w1: string, ts: seq<string>, w2: string)
    requires |ts| >= 1
    requires forall k :: 0 <= k < |ts| ==> ts[k] != [] && NoSpace(ts[k]) && ',' !in ts[k]
    requires ListForm(val, w1, Join(ts, ','), w2)
    ensures Interpret(val) == VList(ClassifyAll(ts))
  {
    NotArray2d(val);
    MatchListAccepts(val, w1, Join(ts, ','), w2);
    ArrayValuesOfJoin(ts);
  }

  /** A value that opens with a bracket is no array2d call. */
  lemma NotArray2d(val: string)
    requires val != [] && val[0] == '['
    ensures MatchArray2d(val).None?
  {
    if |val| >= 7 {
      assert Lower(val[..7])[0] == '[';
    }
  }

  /** An array2d call around such a body is the flat list of its token
      values; the dimensions are not consulted. */
  lemma InterpretArray2d(val: string, name: string, w1: string, a: string, b: string, w2: string,
                         ts: seq<string>, w3: string, w4: string)
    requires |ts| >= 1
    requires forall k :: 0 <= k < |ts| ==> ts[k] != [] && NoSpace(ts[k]) && ',' !in ts[k]
    requires Array2dForm(val, name, w1, a, b, w2, Join(ts, ','), w3, w4)
    ensures Interpret(val) == VList(ClassifyAll(ts))
  {
    MatchArray2dAccepts(val, name, w1, a, b, w2, Join(ts, ','), w3, w4);
    ArrayValuesOfJoin(ts);
  }

  /** The binding a statement makes: none without '=', otherwise the stripped
      text before the first '=' bound to the interpretation of the rest. */
  function Binding(stmt: string): seq<(string, Value)> {
    match Partition(stmt, '=')
    case None => []
    case Some(p) => [(Strip(p.0), Interpret(Strip(p.1)))]
  }

  function Bindings(stmts: seq<string>): seq<(string, Value)>
    decreases |stmts|
  {
    if stmts == [] then [] else Bindings(stmts[..|stmts| - 1]) + Binding(stmts[|stmts| - 1])
  }

  /** The dictionary built by storing each binding in turn. */
  function ToMap(bs: seq<(string, Value)>): map<string, Value>
    decreases |bs|
  {
    if bs == [] then map[] else ToMap(bs[..|bs| - 1])[bs[|bs| - 1].0 := bs[|bs| - 1].1]
  }

  /** What _parse_dzn returns for text. */
  function DznData(text: string): map<string, Value> {
    ToMap(Bindings(Statements(StripComments(text))))
  }

  /** The value stored for a stripped right-hand side: the flat payload of
      array2d(...), else the items of [...], else the scalar. */
  method StatementValue(val: string) returns (value: Value)
    ensures value == Interpret(val)
  {
    var flat := MatchArray2d(val);
    if flat.Some? {
      var flatVals := SplitArrayValues(flat.value);
      return VList(flatVals);
    }
    var items := MatchList(val);
    if items.Some? {
      var values := SplitArrayValues(items.value);
      return VList(values);
    }
    return Classify(val);
  }

  /** _parse_dzn: one dictionary store per statement that has an '='. */
  method ParseDzn(text: string) returns (data: map<string, Value>)
    ensures data == DznData(text)
  {
    var noComments := StripComments(text);
    var statements := Statements(noComments);
    data := map[];
    assert statements[..0] == [];
    for i := 0 to |statements|
      invariant data == ToMap(Bindings(statements[..i]))
    {
      StoreStep(statements, i);
      data := StoreStatement(data, statements[i]);
    }
    assert statements[..|statements|] == statements;
  }

  /** The dictionary after one statement: unchanged without '=', else the
      stripped name bound to the interpreted stripped value. */
  function Store(data: map<string, Value>, stmt: string): map<string, Value> {
    match Partition(stmt, '=')
    case None => data
    case Some(p) => data[Strip(p.0) := Interpret(Strip(p.1))]
  }

  /** The body of the statement loop of _parse_dzn. */
  method StoreStatement(data: map<string, Value>, stmt: string) returns (data': map<string, Value>)
    ensures data' == Store(data, stmt)
  {
    var parts := Partition(stmt, '=');
    data' := data;
    if parts.Some? {
      var key := Strip(parts.value.0);
      var val := Strip(parts.value.1);
      var value := StatementValue(val);
      data' := data[key := value];
    }
  }

  /** One more statement stores its binding, if it has one, over the
      dictionary built so far. */
  lemma StoreStep(stmts: seq<string>, i: nat)
    requires i < |stmts|
    ensures ToMap(Bindings(stmts[..i + 1])) == Store(ToMap(Bindings(stmts[..i])), stmts[i])
  {
    BindingsStep(stmts, i);
    var bs := Bindings(stmts[..i]);
    match Partition(stmts[i], '=')
    case None =>
      assert bs + [] == bs;
    case Some(p) =>
      ToMapSnoc(bs, (Strip(p.0), Interpret(Strip(p.1))));
  }

  lemma BindingsStep(stmts: seq<string>, i: nat)
    requires i < |stmts|
    ensures Bindings(stmts[..i + 1]) == Bindings(stmts[..i]) + Binding(stmts[i])
  {
    var pre := stmts[..i + 1];
    assert pre[..|pre| - 1] == stmts[..i];
  }

  lemma ToMapSnoc(bs: seq<(string, Value)>, b: (string, Value))
    ensures ToMap(bs + [b]) == ToMap(bs)[b.0 := b.1]
  {
    assert (bs + [b])[..|bs|] == bs;
  }

  /** A key is bound exactly when some binding names it. */
  lemma {:induction false} BoundIffNamed(bs: seq<(string, Value)>, key: string)
    ensures key in ToMap(bs) <==> exists i :: 0 <= i < |bs| && bs[i].0 == key
    decreases |bs|
  {
    if bs != [] {
      var init := bs[..|bs| - 1];
      BoundIffNamed(init, key);
      if key in ToMap(init) {
        var i :| 0 <= i < |init| && init[i].0 == key;
        assert bs[i] == init[i];
      }
      if exists i :: 0 <= i < |bs| && bs[i].0 == key {
        var i :| 0 <= i < |bs| && bs[i].0 == key;
        if i < |init| {
          assert init[i] == bs[i];
        }
      }
    }
  }

  /** Later statements overwrite earlier ones: the key of the last binding
      that names it is bound to that binding's value. */
  lemma {:induction false} LastBindingWins(bs: seq<(string, Value)>, key: string, i: nat)
    requires i < |bs| && bs[i].0 == key
    requires forall j :: i < j < |bs| ==> bs[j].0 != key
    ensures key in ToMap(bs) && ToMap(bs)[key] == bs[i].1
    decreases |bs|
  {
    if i < |bs| - 1 {
      var init := bs[..|bs| - 1];
      assert init[i] == bs[i];
      assert forall j :: i < j < |init| ==> init[j] == bs[j];
      LastBindingWins(init, key, i);
    }
  }
}
