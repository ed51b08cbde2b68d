/** `app/request_limits.py`: the scan that bounds a JSON document's nesting and size before it is parsed. */
module JsonLimits {
  import opened Records

  datatype Verdict = Pass | TooDeep | TooMany

  // ----- the text's structural characters -----

  predicate Opens(c: char) {
    c == '[' || c == '{'
  }

  predicate Closes(c: char) {
    c == ']' || c == '}'
  }

  /** A character the outer regular expression stops at. */
  predicate Structural(c: char) {
    c == '"' || Opens(c) || Closes(c) || c == ','
  }

  /** Length of the rest of a string literal, closing quote included; none when it never closes. */
  function StringRest(s: string): (n: Option<nat>)
    ensures n.Some? ==> 0 < n.value <= |s|
  {
    if s == "" then None
    else if s[0] == '"' then Some(1)
    else if s[0] == '\\' then
      if |s| == 1 then None
      else var n := StringRest(s[2..]); if n.Some? then Some(n.value + 2) else None
    else var n := StringRest(s[1..]); if n.Some? then Some(n.value + 1) else None
  }

  /** The brackets and commas outside string literals, up to a string that never closes. */
  function Marks(s: string): seq<char>
    decreases |s|
  {
    if s == "" then []
    else if s[0] == '"' then
      var n := StringRest(s[1..]); if n.Some? then Marks(s[1 + n.value..]) else []
    else if Structural(s[0]) then [s[0]] + Marks(s[1..])
    else Marks(s[1..])
  }

  /** The limits applied to the characters in order, from what was counted so far. */
  function Judge(marks: seq<char>, maxDepth: nat, limit: Option<nat>, values: nat, closers: nat, depth: int): Verdict
    decreases |marks|
  {
    if marks == [] then Pass
    else if Opens(marks[0]) then
      if depth + 1 > maxDepth then TooDeep
      else if Over(values + 1, limit) then TooMany
      else Judge(marks[1..], maxDepth, limit, values + 1, closers, depth + 1)
    else if marks[0] == ',' then
      if Over(values + 1, limit) then TooMany else Judge(marks[1..], maxDepth, limit, values + 1, closers, depth)
    else if Over(closers + 1, limit) then TooMany
    else Judge(marks[1..], maxDepth, limit, values, closers + 1, depth - 1)
  }

  predicate Over(n: nat, limit: Option<nat>) {
    limit.Some? && n > limit.value
  }

  // ----- the scan -----

  /** `_JSON_STRUCTURAL.search`. */
  method Search(text: string, start: nat) returns (found: Option<nat>)
    requires start <= |text|
    ensures found.Some? ==> start <= found.value < |text| && Structural(text[found.value])
    ensures forall i :: start <= i < |text| && (found.Some? ==> i < found.value) ==> !Structural(text[i])
  {
    for i := start to |text|
      invariant forall j :: start <= j < i ==> !Structural(text[j])
    {
      if Structural(text[i]) {
        return Some(i);
      }
    }
    return None;
  }

  /** `_JSON_STRING_REST.match`: the position after the closing quote. */
  method MatchString(text: string, start: nat) returns (end: Option<nat>)
    requires start <= |text|
    ensures end == match StringRest(text[start..]) case None => None case Some(n) => Some(start + n)
  {
    var i := start;
    while i < |text|
      invariant start <= i <= |text|
      invariant match StringRest(text[start..])
                case None => StringRest(text[i..]).None?
                case Some(n) => StringRest(text[i..]) == Some(n - (i - start))
    {
      assert text[i..][0] == text[i] && text[i..][1..] == text[i + 1..];
      if text[i] == '"' {
        return Some(i + 1);
      } else if text[i] == '\\' {
        if i + 1 == |text| {
          return None;
        }
        assert text[i..][2..] == text[i + 2..];
        i := i + 2;
      } else {
        i := i + 1;
      }
    }
    return None;
  }

  lemma {:induction false} SkipsPlain(s: string, n: nat)
    requires n <= |s| && forall i :: 0 <= i < n ==> !Structural(s[i])
    ensures Marks(s) == Marks(s[n..])
  {
    if n == 0 {
      assert s[0..] == s;
    } else {
      SkipsPlain(s[1..], n - 1);
      assert s[1..][n - 1..] == s[n..];
    }
  }

  /** What the limits say of the text from position `p` on, after what was counted before it. */
  function Left(text: string, p: nat, maxDepth: nat, limit: Option<nat>, values: nat, closers: nat, depth: int): Verdict
    requires p <= |text|
  {
    Judge(Marks(text[p..]), maxDepth, limit, values, closers, depth)
  }

  lemma LeftAtEnd(text: string, maxDepth: nat, limit: Option<nat>, values: nat, closers: nat, depth: int)
    ensures Left(text, |text|, maxDepth, limit, values, closers, depth) == Pass
    ensures Left(text, 0, maxDepth, limit, 0, 0, 0) == Judge(Marks(text), maxDepth, limit, 0, 0, 0)
  {
    assert text[|text|..] == "" && text[0..] == text;
  }

  lemma SkipTo(text: string, from: nat, to: nat, maxDepth: nat, limit: Option<nat>, values: nat, closers: nat, depth: int)
    requires from <= to <= |text| && forall i :: from <= i < to ==> !Structural(text[i])
    ensures Left(text, from, maxDepth, limit, values, closers, depth) == Left(text, to, maxDepth, limit, values, closers, depth)
  {
    SkipsPlain(text[from..], to - from);
    assert text[from..][to - from..] == text[to..];
  }

  lemma AtQuote(text: string, p: nat, maxDepth: nat, limit: Option<nat>, values: nat, closers: nat, depth: int)
    requires p < |text| && text[p] == '"'
    ensures var n := StringRest(text[p + 1..]);
            Left(text, p, maxDepth, limit, values, closers, depth)
            == if n.Some? then Left(text, p + 1 + n.value, maxDepth, limit, values, closers, depth) else Pass
  {
    assert text[p..][1..] == text[p + 1..];
    var n := StringRest(text[p + 1..]);
    if n.Some? {
      assert text[p..][1 + n.value..] == text[p + 1 + n.value..];
    }
  }

  lemma AtMark(text: string, p: nat, maxDepth: nat, limit: Option<nat>, values: nat, closers: nat, depth: int)
    requires p < |text| && Structural(text[p]) && text[p] != '"'
    ensures Left(text, p, maxDepth, limit, values, closers, depth)
         == if Opens(text[p]) then
              if depth + 1 > maxDepth then TooDeep
              else if Over(values + 1, limit) then TooMany
              else Left(text, p + 1, maxDepth, limit, values + 1, closers, depth + 1)
            else if text[p] == ',' then
              if Over(values + 1, limit) then TooMany
              else Left(text, p + 1, maxDepth, limit, values + 1, closers, depth)
            else if Over(closers + 1, limit) then TooMany
            else Left(text, p + 1, maxDepth, limit, values, closers + 1, depth - 1)
  {
    assert text[p..][1..] == text[p + 1..];
    assert Marks(text[p..])[1..] == Marks(text[p + 1..]);
  }

  /** `check_json_limits`; `max_values` None is no count limit. Every round moves the position on. */
  method CheckJsonLimits(text: string, maxDepth: nat, maxValues: Option<nat>) returns (verdict: Verdict)
    ensures verdict == Judge(Marks(text), maxDepth, maxValues, 0, 0, 0)
  {
    hide Marks, StringRest, Judge, Left;
    var values, closers, depth, position := 0, 0, 0, 0;
    LeftAtEnd(text, maxDepth, maxValues, values, closers, depth);
    while position < |text|
      invariant 0 <= position <= |text| && 0 <= values && 0 <= closers
      invariant Judge(Marks(text), maxDepth, maxValues, 0, 0, 0) == Left(text, position, maxDepth, maxValues, values, closers, depth)
      decreases |text| - position
    {
      var found := Search(text, position);
      LeftAtEnd(text, maxDepth, maxValues, values, closers, depth);
      SkipTo(text, position, if found.Some? then found.value else |text|, maxDepth, maxValues, values, closers, depth);
      if found.None? {
        return Pass;
      }
      var c := text[found.value];
      position := found.value + 1;
      if c == '"' {
        AtQuote(text, found.value, maxDepth, maxValues, values, closers, depth);
        var end := MatchString(text, position);
        if end.None? {
          return Pass;
        }
        position := end.value;
      } else {
        AtMark(text, found.value, maxDepth, maxValues, values, closers, depth);
        if c == '[' || c == '{' {
          values := values + 1;
          depth := depth + 1;
          if depth > maxDepth {
            return TooDeep;
          }
          if Over(values, maxValues) {
            return TooMany;
          }
        } else if c == ',' {
          values := values + 1;
          if Over(values, maxValues) {
            return TooMany;
          }
        } else {
          closers := closers + 1;
          depth := depth - 1;
          if Over(closers, maxValues) {
            return TooMany;
          }
        }
      }
    }
    LeftAtEnd(text, maxDepth, maxValues, values, closers, depth);
    return Pass;
  }

  // ----- any text -----

  function Opened(marks: seq<char>): nat {
    if marks == [] then 0 else Opened(marks[..|marks| - 1]) + if Opens(marks[|marks| - 1]) then 1 else 0
  }

  function Commas(marks: seq<char>): nat {
    if marks == [] then 0 else Commas(marks[..|marks| - 1]) + if marks[|marks| - 1] == ',' then 1 else 0
  }

  function Closed(marks: seq<char>): nat {
    if marks == [] then 0
    else Closed(marks[..|marks| - 1]) + if Opens(marks[|marks| - 1]) || marks[|marks| - 1] == ',' then 0 else 1
  }

  /** The n-th mark, when it opens a bracket, opens it within the depth limit. */
  predicate DepthAt(marks: seq<char>, n: nat, maxDepth: nat)
    requires 0 < n <= |marks|
  {
    Opens(marks[n - 1]) ==> Opened(marks[..n]) - Closed(marks[..n]) <= maxDepth
  }

  /** Every bracket is within the depth limit, and the counts are within the count limit. */
  predicate Within(marks: seq<char>, maxDepth: nat, limit: Option<nat>) {
    && (forall n :: 0 < n <= |marks| ==> DepthAt(marks, n, maxDepth))
    && !Over(Opened(marks) + Commas(marks), limit) && !Over(Closed(marks), limit)
  }

  lemma {:induction false} CountsGrow(marks: seq<char>, n: nat)
    requires n <= |marks|
    ensures Opened(marks[..n]) <= Opened(marks) && Commas(marks[..n]) <= Commas(marks) && Closed(marks[..n]) <= Closed(marks)
    decreases |marks|
  {
    if n < |marks| {
      CountsGrow(marks[..|marks| - 1], n);
      assert marks[..|marks| - 1][..n] == marks[..n];
    } else {
      assert marks[..n] == marks;
    }
  }

  lemma WithinNext(done: seq<char>, c: char, maxDepth: nat, limit: Option<nat>)
    requires Within(done, maxDepth, limit) && DepthAt(done + [c], |done| + 1, maxDepth)
    requires !Over(Opened(done + [c]) + Commas(done + [c]), limit) && !Over(Closed(done + [c]), limit)
    ensures Within(done + [c], maxDepth, limit)
  {
    forall n | 0 < n <= |done|
      ensures DepthAt(done + [c], n, maxDepth)
    {
      assert DepthAt(done, n, maxDepth);
      assert (done + [c])[..n] == done[..n];
    }
  }

  lemma NotWithin(done: seq<char>, rest: seq<char>, maxDepth: nat, limit: Option<nat>)
    requires done != []
    requires !DepthAt(done, |done|, maxDepth) || Over(Opened(done) + Commas(done), limit) || Over(Closed(done), limit)
    ensures !Within(done + rest, maxDepth, limit)
  {
    hide Opened, Commas, Closed;
    var all := done + rest;
    CountsGrow(all, |done|);
    assert all[..|done|] == done && done[..|done|] == done;
    assert DepthAt(all, |done|, maxDepth) == DepthAt(done, |done|, maxDepth);
  }

  /** One mark is judged by what it makes of the counts. */
  lemma JudgeNext(done: seq<char>, rest: seq<char>, maxDepth: nat, limit: Option<nat>)
    requires rest != [] && !Over(Opened(done) + Commas(done), limit) && !Over(Closed(done), limit)
    ensures var next := done + [rest[0]];
            Judge(rest, maxDepth, limit, Opened(done) + Commas(done), Closed(done), Opened(done) - Closed(done)) == Pass <==>
            && DepthAt(next, |next|, maxDepth)
            && !Over(Opened(next) + Commas(next), limit) && !Over(Closed(next), limit)
            && Judge(rest[1..], maxDepth, limit, Opened(next) + Commas(next), Closed(next), Opened(next) - Closed(next)) == Pass
  {
    var next := done + [rest[0]];
    assert next[..|next|] == next && next[..|next| - 1] == done && next[|next| - 1] == rest[0];
    assert Opened(next) == Opened(done) + (if Opens(rest[0]) then 1 else 0) && Commas(next) == Commas(done) + (if rest[0] == ',' then 1 else 0);
    assert Closed(next) == Closed(done) + (if Opens(rest[0]) || rest[0] == ',' then 0 else 1);
    hide Opened, Commas, Closed;
  }

  lemma {:induction false} JudgeMeans(done: seq<char>, rest: seq<char>, maxDepth: nat, limit: Option<nat>)
    requires Within(done, maxDepth, limit)
    ensures Judge(rest, maxDepth, limit, Opened(done) + Commas(done), Closed(done), Opened(done) - Closed(done)) == Pass
            <==> Within(done + rest, maxDepth, limit)
    decreases |rest|
  {
    if rest == [] {
      assert done + rest == done;
    } else {
      var next := done + [rest[0]];
      JudgeNext(done, rest, maxDepth, limit);
      hide Judge, Opened, Commas, Closed, DepthAt, Over, Within;
      assert next + rest[1..] == done + rest;
      if !DepthAt(next, |next|, maxDepth) || Over(Opened(next) + Commas(next), limit) || Over(Closed(next), limit) {
        NotWithin(next, rest[1..], maxDepth, limit);
      } else {
        WithinNext(done, rest[0], maxDepth, limit);
        JudgeMeans(next, rest[1..], maxDepth, limit);
      }
    }
  }

  /** Any text passes exactly when, outside its strings, every bracket is within the depth limit and neither the openers
      and commas nor the closers outnumber the count limit. */
  lemma PassesIffWithin(text: string, maxDepth: nat, limit: Option<nat>)
    ensures Judge(Marks(text), maxDepth, limit, 0, 0, 0) == Pass <==> Within(Marks(text), maxDepth, limit)
  {
    assert Within([], maxDepth, limit) && Opened([]) == Commas([]) == Closed([]) == 0;
    hide Marks, Judge, Within, Opened, Commas, Closed;
    JudgeMeans([], Marks(text), maxDepth, limit);
    assert [] + Marks(text) == Marks(text);
  }

  // ----- JSON documents -----

  datatype Kind = Array | Object

  /** The concrete syntax of a JSON text (RFC 8259): the white space is part of it, and so are escapes in strings. */
  datatype Json =
    | Scalar(text: string)
    | Text(body: string)
    | Empty(kind: Kind, pad: string)
    | Container(kind: Kind, elements: Elements)

  datatype Elements =
    | Last(lead: Lead, value: Json, after: string)
    | More(lead: Lead, value: Json, after: string, rest: Elements)

  /** What comes before a value: white space, with the member's name in an object. */
  datatype Lead = Item(before: string) | Member(before: string, name: string, gap: string, colon: string)

  /** No bracket, comma or quote. */
  predicate Plain(s: string) {
    forall i :: 0 <= i < |s| ==> !Structural(s[i])
  }

  /** Section 7: characters other than the quote and the backslash, and backslash escapes. */
  predicate StringBody(s: string) {
    if s == "" then true
    else if s[0] == '\\' then |s| >= 2 && StringBody(s[2..])
    else s[0] != '"' && StringBody(s[1..])
  }

  predicate WellFormedLead(lead: Lead, kind: Kind) {
    match lead
    case Item(before) => kind == Array && Plain(before)
    case Member(before, name, gap, colon) => kind == Object && Plain(before) && StringBody(name) && Plain(gap) && Plain(colon)
  }

  predicate WellFormed(v: Json) {
    match v
    case Scalar(text) => Plain(text)
    case Text(body) => StringBody(body)
    case Empty(_, pad) => Plain(pad)
    case Container(kind, elements) => WellFormedElements(elements, kind)
  }

  predicate WellFormedElements(es: Elements, kind: Kind) {
    && WellFormedLead(es.lead, kind) && WellFormed(es.value) && Plain(es.after)
    && (es.More? ==> WellFormedElements(es.rest, kind))
  }

  function Quoted(body: string): string {
    "\"" + body + "\""
  }

  function PrintLead(lead: Lead): string {
    match lead
    case Item(before) => before
    case Member(before, name, gap, colon) => before + Quoted(name) + gap + ":" + colon
  }

  function Print(v: Json): string {
    match v
    case Scalar(text) => text
    case Text(body) => Quoted(body)
    case Empty(kind, pad) => [Opener(kind)] + pad + [Closer(kind)]
    case Container(kind, elements) => [Opener(kind)] + PrintElements(elements) + [Closer(kind)]
  }

  function PrintElements(es: Elements): string {
    PrintLead(es.lead) + Print(es.value) + es.after + if es.More? then "," + PrintElements(es.rest) else ""
  }

  function Opener(kind: Kind): char {
    if kind == Array then '[' else '{'
  }

  function Closer(kind: Kind): char {
    if kind == Array then ']' else '}'
  }

  /** Arrays hold values between square brackets, objects named values between braces; commas stand between two. */
  lemma SyntaxMeans(es: Elements, lead: Lead, value: Json, pad: string)
    ensures Print(Empty(Array, pad)) == "[" + pad + "]" && Print(Empty(Object, pad)) == "{" + pad + "}"
    ensures Print(Container(Array, es)) == "[" + PrintElements(es) + "]" && Print(Container(Object, es)) == "{" + PrintElements(es) + "}"
    ensures PrintElements(More(lead, value, pad, es)) == PrintLead(lead) + Print(value) + pad + "," + PrintElements(es)
    ensures PrintElements(Last(lead, value, pad)) == PrintLead(lead) + Print(value) + pad
    ensures lead.Member? ==> PrintLead(lead) == lead.before + "\"" + lead.name + "\"" + lead.gap + ":" + lead.colon
    ensures WellFormed(Container(Array, Last(lead, value, pad))) <==> lead.Item? && Plain(lead.before) && WellFormed(value) && Plain(pad)
    ensures WellFormed(Container(Object, Last(lead, value, pad))) <==>
            && lead.Member? && Plain(lead.before) && StringBody(lead.name) && Plain(lead.gap) && Plain(lead.colon)
            && WellFormed(value) && Plain(pad)
  {
    hide Plain, StringBody;
    assert PrintLead(lead) + Print(value) + pad + "" == PrintLead(lead) + Print(value) + pad;
    assert PrintLead(lead) + Print(value) + pad + ("," + PrintElements(es)) == PrintLead(lead) + Print(value) + pad + "," + PrintElements(es);
  }

  /** String literals by their first character: nothing, an escape of any one character, or any character but the quote. */
  lemma StringBodyMeans(c: char, s: string)
    ensures StringBody("") && !StringBody("\\") && StringBody("\\" + [c] + s) == StringBody(s)
    ensures c != '\\' ==> (StringBody([c] + s) <==> c != '"' && StringBody(s))
  {
    assert ("\\" + [c] + s)[2..] == s && ([c] + s)[1..] == s;
  }

  // ----- the measures of a document -----

  function Depth(v: Json): nat {
    match v
    case Empty(_, _) => 1
    case Container(_, elements) => 1 + ElementsDepth(elements)
    case _ => 0
  }

  function ElementsDepth(es: Elements): nat {
    var d := Depth(es.value);
    if es.More? && ElementsDepth(es.rest) > d then ElementsDepth(es.rest) else d
  }

  function Containers(v: Json): nat {
    match v
    case Empty(_, _) => 1
    case Container(_, elements) => 1 + ElementsContainers(elements)
    case _ => 0
  }

  function ElementsContainers(es: Elements): nat {
    Containers(es.value) + if es.More? then ElementsContainers(es.rest) else 0
  }

  function Separators(v: Json): nat {
    if v.Container? then ElementsSeparators(v.elements) else 0
  }

  function ElementsSeparators(es: Elements): nat {
    Separators(es.value) + if es.More? then 1 + ElementsSeparators(es.rest) else 0
  }

  // ----- the marks of a printed document -----

  function Brackets(v: Json): seq<char> {
    match v
    case Empty(kind, _) => [Opener(kind), Closer(kind)]
    case Container(kind, elements) => [Opener(kind)] + ElementsBrackets(elements) + [Closer(kind)]
    case _ => []
  }

  function ElementsBrackets(es: Elements): seq<char> {
    Brackets(es.value) + if es.More? then [','] + ElementsBrackets(es.rest) else []
  }

  lemma PlainMarks(s: string, rest: string)
    requires Plain(s)
    ensures Marks(s + rest) == Marks(rest)
  {
    SkipsPlain(s + rest, |s|);
    assert (s + rest)[|s|..] == rest;
  }

  lemma {:induction false} BodyRest(body: string, rest: string)
    requires StringBody(body)
    ensures StringRest(body + "\"" + rest) == Some(|body| + 1)
    decreases |body|
  {
    var s := body + "\"" + rest;
    if body != "" {
      if body[0] == '\\' {
        BodyRest(body[2..], rest);
        assert s[2..] == body[2..] + "\"" + rest;
      } else {
        BodyRest(body[1..], rest);
        assert s[1..] == body[1..] + "\"" + rest;
      }
    }
  }

  lemma QuotedMarks(body: string, rest: string)
    requires StringBody(body)
    ensures Marks(Quoted(body) + rest) == Marks(rest)
  {
    var s := Quoted(body) + rest;
    BodyRest(body, rest);
    assert s[1..] == body + "\"" + rest;
    assert s[1 + |body| + 1..] == rest;
  }

  lemma MarkFirst(c: char, rest: string)
    requires Structural(c) && c != '"'
    ensures Marks([c] + rest) == [c] + Marks(rest)
  {
    assert ([c] + rest)[1..] == rest;
  }

  lemma LeadMarks(lead: Lead, kind: Kind, rest: string)
    requires WellFormedLead(lead, kind)
    ensures Marks(PrintLead(lead) + rest) == Marks(rest)
  {
    match lead
    case Item(before) => PlainMarks(before, rest);
    case Member(before, name, gap, colon) =>
      var tail := gap + ":" + colon + rest;
      assert PrintLead(lead) + rest == before + (Quoted(name) + tail);
      PlainMarks(before, Quoted(name) + tail);
      QuotedMarks(name, tail);
      assert tail == (gap + ":" + colon) + rest;
      PlainMarks(gap + ":" + colon, rest);
  }

  lemma EnclosedMarks(kind: Kind, inside: string, marks: seq<char>, rest: string)
    requires Marks(inside + ([Closer(kind)] + rest)) == marks + Marks([Closer(kind)] + rest)
    ensures Marks([Opener(kind)] + inside + [Closer(kind)] + rest) == [Opener(kind)] + marks + [Closer(kind)] + Marks(rest)
  {
    hide Marks;
    var tail := [Closer(kind)] + rest;
    assert [Opener(kind)] + inside + [Closer(kind)] + rest == [Opener(kind)] + (inside + tail);
    MarkFirst(Opener(kind), inside + tail);
    MarkFirst(Closer(kind), rest);
  }

  lemma {:induction false} PrintMarks(v: Json, rest: string)
    requires WellFormed(v)
    ensures Marks(Print(v) + rest) == Brackets(v) + Marks(rest)
    decreases v
  {
    hide Marks;
    match v
    case Scalar(text) => PlainMarks(text, rest);
    case Text(body) => QuotedMarks(body, rest);
    case Empty(kind, pad) =>
      PlainMarks(pad, [Closer(kind)] + rest);
      EnclosedMarks(kind, pad, [], rest);
    case Container(kind, elements) =>
      PrintElementsMarks(elements, kind, [Closer(kind)] + rest);
      EnclosedMarks(kind, PrintElements(elements), ElementsBrackets(elements), rest);
  }

  lemma {:induction false} PrintElementsMarks(es: Elements, kind: Kind, rest: string)
    requires WellFormedElements(es, kind)
    ensures Marks(PrintElements(es) + rest) == ElementsBrackets(es) + Marks(rest)
    decreases es
  {
    hide Marks, Print, PrintLead, Plain, WellFormed, WellFormedLead;
    var tail := if es.More? then "," + (PrintElements(es.rest) + rest) else rest;
    ElementMarks(es, kind, tail);
    PrintMarks(es.value, es.after + tail);
    PlainMarks(es.after, tail);
    Regroup(PrintLead(es.lead) + Print(es.value) + es.after, if es.More? then PrintElements(es.rest) else "", rest);
    if es.More? {
      PrintElementsMarks(es.rest, kind, rest);
      CommaMarks(Brackets(es.value), PrintElements(es.rest) + rest, ElementsBrackets(es.rest), Marks(rest));
    }
  }

  lemma Regroup(first: string, more: string, rest: string)
    ensures first + ("," + more) + rest == first + ("," + (more + rest))
    ensures first + "" + rest == first + rest
  {
  }

  lemma CommaMarks(first: seq<char>, s: string, more: seq<char>, rest: seq<char>)
    requires Marks(s) == more + rest
    ensures first + Marks("," + s) == first + ([','] + more) + rest
  {
    MarkFirst(',', s);
  }

  lemma ElementMarks(es: Elements, kind: Kind, tail: string)
    requires WellFormedElements(es, kind)
    ensures Marks(PrintLead(es.lead) + Print(es.value) + es.after + tail) == Marks(Print(es.value) + (es.after + tail))
  {
    hide Marks, Print, PrintLead;
    assert PrintLead(es.lead) + Print(es.value) + es.after + tail == PrintLead(es.lead) + (Print(es.value) + (es.after + tail));
    LeadMarks(es.lead, kind, Print(es.value) + (es.after + tail));
  }

  // ----- the limits on a printed document -----

  lemma NoBrackets(v: Json)
    ensures Brackets(v) == [] ==> Depth(v) == Containers(v) == Separators(v) == 0
  {
  }

  /** The document's brackets, judged from a state whose closers do not outnumber its openers and commas. */
  lemma {:induction false} JudgeDocument(v: Json, rest: seq<char>, maxDepth: nat, limit: Option<nat>, values: nat, closers: nat, depth: nat)
    requires closers + depth <= values && depth <= maxDepth
    ensures var total := values + Containers(v) + Separators(v);
            if depth + Depth(v) <= maxDepth && !Over(total, limit)
            then Judge(Brackets(v) + rest, maxDepth, limit, values, closers, depth)
                 == Judge(rest, maxDepth, limit, total, closers + Containers(v), depth)
            else Brackets(v) != [] ==> Judge(Brackets(v) + rest, maxDepth, limit, values, closers, depth) != Pass
    decreases v
  {
    match v
    case Scalar(_) => assert Brackets(v) + rest == rest;
    case Text(_) => assert Brackets(v) + rest == rest;
    case Empty(kind, _) =>
      assert (Brackets(v) + rest)[1..] == [Closer(kind)] + rest;
      assert ([Closer(kind)] + rest)[1..] == rest;
    case Container(kind, es) =>
      var tail := [Closer(kind)] + rest;
      assert Brackets(v) + rest == [Opener(kind)] + (ElementsBrackets(es) + tail);
      assert ([Opener(kind)] + (ElementsBrackets(es) + tail))[1..] == ElementsBrackets(es) + tail;
      if depth + 1 <= maxDepth && !Over(values + 1, limit) {
        JudgeElements(es, tail, maxDepth, limit, values + 1, closers, depth + 1);
        assert tail[1..] == rest;
      }
  }

  lemma {:induction false} JudgeElements(es: Elements, rest: seq<char>, maxDepth: nat, limit: Option<nat>, values: nat, closers: nat, depth: nat)
    requires closers + depth <= values && depth <= maxDepth && !Over(values, limit)
    ensures var total := values + ElementsContainers(es) + ElementsSeparators(es);
            if depth + ElementsDepth(es) <= maxDepth && !Over(total, limit)
            then Judge(ElementsBrackets(es) + rest, maxDepth, limit, values, closers, depth)
                 == Judge(rest, maxDepth, limit, total, closers + ElementsContainers(es), depth)
            else Judge(ElementsBrackets(es) + rest, maxDepth, limit, values, closers, depth) != Pass
    decreases es
  {
    var v := es.value;
    NoBrackets(v);
    if es.Last? {
      JudgeDocument(v, rest, maxDepth, limit, values, closers, depth);
      assert ElementsBrackets(es) == Brackets(v);
    } else {
      var more := ElementsBrackets(es.rest) + rest;
      assert ElementsBrackets(es) + rest == Brackets(v) + ([','] + more);
      JudgeDocument(v, [','] + more, maxDepth, limit, values, closers, depth);
      assert ([','] + more)[1..] == more;
      var next := values + Containers(v) + Separators(v) + 1;
      if depth + Depth(v) <= maxDepth && !Over(next, limit) {
        JudgeElements(es.rest, rest, maxDepth, limit, next, closers + Containers(v), depth);
      }
    }
  }

  /** A printed JSON document, whatever its white space and strings, passes exactly when its nesting is within the depth
      limit and its arrays, objects and commas are within the count limit. */
  lemma DocumentPassesIff(v: Json, before: string, after: string, maxDepth: nat, limit: Option<nat>)
    requires WellFormed(v) && Plain(before) && Plain(after)
    ensures Judge(Marks(before + Print(v) + after), maxDepth, limit, 0, 0, 0) == Pass
            <==> Depth(v) <= maxDepth && !Over(Containers(v) + Separators(v), limit)
  {
    assert before + Print(v) + after == before + (Print(v) + after);
    PlainMarks(before, Print(v) + after);
    PrintMarks(v, after);
    PlainMarks(after, "");
    assert after + "" == after;
    JudgeDocument(v, [], maxDepth, limit, 0, 0, 0);
    assert Brackets(v) + Marks(after) == Brackets(v) + [];
  }
}
