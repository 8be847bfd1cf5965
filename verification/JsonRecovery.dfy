/** The two character scanners that recover a JSON payload from a language model's reply
    (src/openhamster/llm.py): one cuts a balanced object or array out of surrounding chatter,
    the other escapes the double quotes left raw inside strings.

    Each scanner is a loop, as in the source, proved against a function on the text still to
    be read; the theorems are about those functions. */
module JsonRecovery {
  import opened Prelude
  import opened JsonText

  /** Where a scanner stands: the source's flags `in_string` and `escaped`. */
  datatype Mode = Outside | Inside | Escaped

  function ModeOf(inString: bool, escaped: bool): Mode {
    if !inString then Outside else if escaped then Escaped else Inside
  }

  // ==================== Extraction ====================

  function ScanMode(c: char, m: Mode): Mode {
    match m
    case Outside => if c == '"' then Inside else Outside
    case Escaped => Inside
    case Inside => if c == '\\' then Escaped else if c == '"' then Outside else Inside
  }

  function ScanDepth(c: char, opening: char, closing: char, depth: int, m: Mode): int {
    if m != Outside || c == '"' then depth
    else if c == opening then depth + 1
    else if c == closing then depth - 1
    else depth
  }

  /** The text left over once the closing bracket that brings the depth to zero has been read. */
  function AfterBalanced(t: string, opening: char, closing: char, depth: int, m: Mode): Option<string> {
    if t == "" then None
    else
      var depth' := ScanDepth(t[0], opening, closing, depth, m);
      if depth' < depth && depth' == 0 then Some(t[1..])
      else AfterBalanced(t[1..], opening, closing, depth', ScanMode(t[0], m))
  }

  predicate IsOpener(c: char) {
    c == '{' || c == '['
  }

  function Closer(opening: char): char {
    if opening == '{' then '}' else ']'
  }

  /** The text from its first bracket on. */
  function FromOpener(t: string): string {
    if t == "" || IsOpener(t[0]) then t else FromOpener(t[1..])
  }

  /** No object or array starts in the text. */
  predicate BracketFree(t: string) {
    forall i | 0 <= i < |t| :: t[i] != '{' && t[i] != '['
  }

  /** `FromOpener` drops the `k` characters before the first bracket. */
  lemma {:induction false} FromOpenerIsFirst(t: string) returns (k: nat)
    ensures k <= |t| && FromOpener(t) == t[k..]
    ensures k < |t| ==> t[k] == '{' || t[k] == '['
    ensures BracketFree(t[..k])
  {
    k := 0;
    if t != "" && !IsOpener(t[0]) {
      var j := FromOpenerIsFirst(t[1..]);
      k := j + 1;
      assert t[1..][j..] == t[k..];
      forall i | 0 <= i < k
        ensures t[..k][i] != '{' && t[..k][i] != '['
      {
        assert i > 0 ==> t[..k][i] == t[1..][..j][i - 1];
      }
    }
  }

  lemma {:induction false} AfterBalancedIsSuffix(t: string, o: char, c: char, depth: int, m: Mode)
    ensures var r := AfterBalanced(t, o, c, depth, m);
            r.Some? ==> |r.value| < |t| && r.value == t[|t| - |r.value|..]
    decreases |t|
  {
    if t != "" {
      AfterBalancedIsSuffix(t[1..], o, c, ScanDepth(t[0], o, c, depth, m), ScanMode(t[0], m));
    }
  }

  /** The piece from an opening bracket to the bracket that balances it. */
  function ExtractFrom(t: string): Option<string>
    requires t != ""
  {
    AfterBalancedIsSuffix(t, t[0], Closer(t[0]), 0, Outside);
    match AfterBalanced(t, t[0], Closer(t[0]), 0, Outside)
    case None => None
    case Some(rest) => Some(t[..|t| - |rest|])
  }

  /** What `_extract_balanced_json` returns. */
  function Extract(text: string): Option<string> {
    var t := FromOpener(text);
    if t == "" then None else ExtractFrom(t)
  }

  /** The first loop of `_extract_balanced_json`. */
  method FindOpener(text: string) returns (start: nat)
    ensures start <= |text| && text[start..] == FromOpener(text)
  {
    start := 0;
    while start < |text| && text[start] != '{' && text[start] != '['
      invariant start <= |text|
      invariant FromOpener(text) == FromOpener(text[start..])
    {
      ghost var rest := text[start..];
      assert rest[0] == text[start] && rest[1..] == text[start + 1..];
      start := start + 1;
    }
  }

  /** Its second loop. */
  method ScanBalanced(text: string, start: nat) returns (r: Option<string>)
    requires start < |text|
    ensures r == ExtractFrom(text[start..])
  {
    ghost var t := text[start..];
    var opening := text[start];
    var closing := if opening == '{' then '}' else ']';

    var depth, inString, escaped := 0, false, false;
    var index := start;
    while index < |text|
      invariant start <= index <= |text|
      invariant AfterBalanced(t, opening, closing, 0, Outside)
             == AfterBalanced(text[index..], opening, closing, depth, ModeOf(inString, escaped))
      invariant !inString ==> !escaped
    {
      var ch := text[index];
      ghost var depth', m' := ScanDepth(ch, opening, closing, depth, ModeOf(inString, escaped)),
                              ScanMode(ch, ModeOf(inString, escaped));
      assert text[index..][1..] == text[index + 1..];
      if inString {
        if escaped {
          escaped := false;
        } else if ch == '\\' {
          escaped := true;
        } else if ch == '"' {
          inString := false;
        }
      } else if ch == '"' {
        inString := true;
      } else if ch == opening {
        depth := depth + 1;
      } else if ch == closing {
        depth := depth - 1;
        if depth == 0 {
          PieceBefore(text, start, index + 1);
          return Some(text[start..index + 1]);
        }
      }
      assert depth == depth' && ModeOf(inString, escaped) == m';
      index := index + 1;
    }
    return None;
  }

  method ExtractBalancedJson(text: string) returns (r: Option<string>)
    ensures r == Extract(text)
  {
    var start := FindOpener(text);
    if start == |text| {
      return None;
    }
    r := ScanBalanced(text, start);
  }

  lemma PieceBefore(text: string, start: nat, end: nat)
    requires start <= end <= |text|
    ensures text[start..][..|text[start..]| - |text[end..]|] == text[start..end]
  {
  }

  // ----- Strings whose raw quotes come in pairs around bracket-free words -----

  /** Raw quotes pair up, and what stands between a pair is plain text without brackets: a
      quoted word inside a sentence. `inside` tells whether the next quote opens a pair. */
  predicate QuotesPaired(body: seq<Unit>, inside: bool) {
    if body == [] then inside
    else if body[0].RawQuote? then QuotesPaired(body[1..], !inside)
    else
      && (!inside ==> body[0].Plain? && !IsBracket(body[0].c))
      && QuotesPaired(body[1..], inside)
  }

  predicate Paired(v: Value) {
    match v
    case Scalar(_) => true
    case Text(body) => QuotesPaired(body, true)
    case Array(_, items) => ItemsPaired(items)
    case Object(_, members) => MembersPaired(members)
  }

  predicate ItemsPaired(items: Items) {
    items.Item? ==> Paired(items.value) && ItemsPaired(items.rest)
  }

  predicate MembersPaired(members: Members) {
    members.Member? ==>
      QuotesPaired(members.key, true) && Paired(members.value) && MembersPaired(members.rest)
  }

  lemma {:induction false} NoRawQuoteIsPaired(body: seq<Unit>)
    requires RawQuote !in body
    ensures QuotesPaired(body, true)
  {
    if body != [] {
      NoRawQuoteIsPaired(body[1..]);
    }
  }

  lemma {:induction false} ValidIsPaired(v: Value)
    requires Valid(v)
    ensures Paired(v)
  {
    match v
    case Scalar(_) =>
    case Text(body) => NoRawQuoteIsPaired(body);
    case Array(_, items) => ValidItemsPaired(items);
    case Object(_, members) => ValidMembersPaired(members);
  }

  lemma {:induction false} ValidItemsPaired(items: Items)
    requires FixItems(items) == items
    ensures ItemsPaired(items)
  {
    if items.Item? {
      ValidIsPaired(items.value);
      ValidItemsPaired(items.rest);
    }
  }

  lemma {:induction false} ValidMembersPaired(members: Members)
    requires FixMembers(members) == members
    ensures MembersPaired(members)
  {
    if members.Member? {
      NoRawQuoteIsPaired(members.key);
      ValidIsPaired(members.value);
      ValidMembersPaired(members.rest);
    }
  }

  // ----- The quotes and brackets of a value -----

  /** What in a value can move the extractor: a quote, an escaped quote, or a bracket. */
  datatype Mark = Quote | EscapedQuote | Bracket(c: char)

  function UnitMarks(u: Unit): seq<Mark> {
    match u
    case Plain(c) => if IsBracket(c) then [Bracket(c)] else []
    case Escape(c) => if c == '"' then [EscapedQuote] else []
    case Hex(_) => []
    case RawQuote => [Quote]
  }

  function BodyMarks(body: seq<Unit>): seq<Mark> {
    if body == [] then [] else UnitMarks(body[0]) + BodyMarks(body[1..])
  }

  function TextMarks(body: seq<Unit>): seq<Mark> {
    [Quote] + (BodyMarks(body) + [Quote])
  }

  function Marks(v: Value): seq<Mark> {
    match v
    case Scalar(_) => []
    case Text(body) => TextMarks(body)
    case Array(_, items) => [Bracket('[')] + (ItemsMarks(items) + [Bracket(']')])
    case Object(_, members) => [Bracket('{')] + (MembersMarks(members) + [Bracket('}')])
  }

  function ItemsMarks(items: Items): seq<Mark> {
    if items.NoItems? then [] else Marks(items.value) + ItemsMarks(items.rest)
  }

  function MembersMarks(members: Members): seq<Mark> {
    if members.NoMembers? then []
    else TextMarks(members.key) + (Marks(members.value) + MembersMarks(members.rest))
  }

  /** The count of open brackets of the outermost kind, and whether one stands outside of strings;
      or the outermost bracket has been closed. */
  datatype Tally = Open(depth: int, outside: bool) | Closed

  function Count(k: Tally, x: Mark, o: char): Tally {
    if k.Closed? then k
    else match x
      case Quote => Open(k.depth, !k.outside)
      case EscapedQuote => Open(k.depth, false)
      case Bracket(c) =>
        if !k.outside then k
        else if c == o then Open(k.depth + 1, true)
        else if c != Closer(o) then k
        else if k.depth == 1 then Closed
        else Open(k.depth - 1, true)
  }

  function Tallied(ms: seq<Mark>, k: Tally, o: char): Tally {
    if ms == [] then k else Tallied(ms[1..], Count(k, ms[0], o), o)
  }

  lemma {:induction false} TalliedAppend(a: seq<Mark>, b: seq<Mark>, k: Tally, o: char)
    ensures Tallied(a + b, k, o) == Tallied(b, Tallied(a, k, o), o)
  {
    if a == [] {
      assert a + b == b;
    } else {
      assert (a + b)[1..] == a[1..] + b;
      TalliedAppend(a[1..], b, Count(k, a[0], o), o);
    }
  }

  lemma {:induction false} TalliedStaysClosed(ms: seq<Mark>, o: char)
    ensures Tallied(ms, Closed, o) == Closed
  {
    if ms != [] {
      TalliedStaysClosed(ms[1..], o);
    }
  }

  // ----- The extractor reads a value as its marks -----

  /** Where the scanner ends when it goes on from `k`. */
  function From(t: string, k: Tally, o: char): Option<string>
    requires k.Open?
  {
    AfterBalanced(t, o, Closer(o), k.depth, if k.outside then Outside else Inside)
  }

  /** `r` is where a scan ends that has come to `rest` with the tally `k`; if it has closed, it did
      so before `rest`. */
  predicate EndsAs(r: Option<string>, rest: string, k: Tally, o: char) {
    if k.Closed? then r.Some? && |r.value| >= |rest| else k.depth >= 1 && r == From(rest, k, o)
  }

  /** The scanner reads the part of `t` in front of `rest` as the marks `ms`. */
  ghost predicate ReadAs(t: string, rest: string, ms: seq<Mark>, o: char) {
    |rest| <= |t| && forall k: Tally | k.Open? && k.depth >= 1 :: EndsAs(From(t, k, o), rest, Tallied(ms, k, o), o)
  }

  lemma Compose(t: string, mid: string, rest: string, a: seq<Mark>, b: seq<Mark>, o: char)
    requires ReadAs(t, mid, a, o) && ReadAs(mid, rest, b, o)
    ensures ReadAs(t, rest, a + b, o)
  {
    forall k: Tally | k.Open? && k.depth >= 1
      ensures EndsAs(From(t, k, o), rest, Tallied(a + b, k, o), o)
    {
      TalliedAppend(a, b, k, o);
      TalliedStaysClosed(b, o);
      assert EndsAs(From(t, k, o), mid, Tallied(a, k, o), o);
    }
  }

  predicate Neutral(s: string) {
    forall i | 0 <= i < |s| :: s[i] != '"' && s[i] != '\\' && !IsBracket(s[i])
  }

  lemma {:induction false} SkipNeutral(s: string, rest: string, o: char, depth: int, m: Mode)
    requires IsOpener(o) && Neutral(s) && m != Escaped
    ensures AfterBalanced(s + rest, o, Closer(o), depth, m) == AfterBalanced(rest, o, Closer(o), depth, m)
  {
    if s == "" {
      assert s + rest == rest;
    } else {
      assert (s + rest)[1..] == s[1..] + rest;
      SkipNeutral(s[1..], rest, o, depth, m);
    }
  }

  lemma ReadNeutral(s: string, rest: string, o: char)
    requires IsOpener(o) && Neutral(s)
    ensures ReadAs(s + rest, rest, [], o)
  {
    forall k: Tally | k.Open? && k.depth >= 1
      ensures EndsAs(From(s + rest, k, o), rest, Tallied([], k, o), o)
    {
      SkipNeutral(s, rest, o, k.depth, if k.outside then Outside else Inside);
    }
  }

  lemma ReadQuote(rest: string, o: char)
    requires IsOpener(o)
    ensures ReadAs(['"'] + rest, rest, [Quote], o)
  {
    assert (['"'] + rest)[1..] == rest;
    forall k: Tally | k.Open? && k.depth >= 1
      ensures EndsAs(From(['"'] + rest, k, o), rest, Tallied([Quote], k, o), o)
    {
      assert Tallied([Quote], k, o) == Tallied([], Count(k, Quote, o), o);
    }
  }

  lemma ReadBracket(c: char, rest: string, o: char)
    requires IsOpener(o) && IsBracket(c)
    ensures ReadAs([c] + rest, rest, [Bracket(c)], o)
  {
    assert ([c] + rest)[1..] == rest;
    forall k: Tally | k.Open? && k.depth >= 1
      ensures EndsAs(From([c] + rest, k, o), rest, Tallied([Bracket(c)], k, o), o)
    {
      assert Tallied([Bracket(c)], k, o) == Tallied([], Count(k, Bracket(c), o), o);
    }
  }

  lemma ScanOne(c: char, rest: string, o: char, depth: int, m: Mode)
    requires IsOpener(o) && (m != Outside || !IsBracket(c))
    ensures AfterBalanced([c] + rest, o, Closer(o), depth, m)
         == AfterBalanced(rest, o, Closer(o), depth, ScanMode(c, m))
  {
    assert ([c] + rest)[1..] == rest;
  }

  /** Inside a string an escape hides its character; outside the backslash counts for nothing. */
  lemma ReadEscape(c: char, rest: string, o: char)
    requires IsOpener(o) && UnitOk(Escape(c))
    ensures ReadAs(['\\'] + ([c] + rest), rest, UnitMarks(Escape(c)), o)
  {
    var t := ['\\'] + ([c] + rest);
    forall k: Tally | k.Open? && k.depth >= 1
      ensures EndsAs(From(t, k, o), rest, Tallied(UnitMarks(Escape(c)), k, o), o)
    {
      var m := if k.outside then Outside else Inside;
      ScanOne('\\', [c] + rest, o, k.depth, m);
      ScanOne(c, rest, o, k.depth, ScanMode('\\', m));
      assert Tallied([EscapedQuote], k, o) == Tallied([], Count(k, EscapedQuote, o), o);
    }
  }

  lemma ReadHex(digits: string, rest: string, o: char)
    requires IsOpener(o) && UnitOk(Hex(digits))
    ensures ReadAs(['\\'] + (['u'] + (digits + rest)), rest, [], o)
  {
    var t := ['\\'] + (['u'] + (digits + rest));
    forall k: Tally | k.Open? && k.depth >= 1
      ensures EndsAs(From(t, k, o), rest, Tallied([], k, o), o)
    {
      var m := if k.outside then Outside else Inside;
      ScanOne('\\', ['u'] + (digits + rest), o, k.depth, m);
      ScanOne('u', digits + rest, o, k.depth, ScanMode('\\', m));
      SkipNeutral(digits, rest, o, k.depth, m);
    }
  }

  lemma ReadUnit(u: Unit, rest: string, o: char)
    requires IsOpener(o) && UnitOk(u)
    ensures ReadAs(PutUnit(u, rest), rest, UnitMarks(u), o)
  {
    match u
    case Plain(c) =>
      if IsBracket(c) {
        ReadBracket(c, rest, o);
      } else {
        ReadNeutral([c], rest, o);
      }
    case RawQuote => ReadQuote(rest, o);
    case Escape(c) => ReadEscape(c, rest, o);
    case Hex(digits) => ReadHex(digits, rest, o);
  }

  lemma {:induction false} ReadBody(body: seq<Unit>, rest: string, o: char)
    requires IsOpener(o) && BodyOk(body)
    ensures ReadAs(PutBody(body, rest), rest, BodyMarks(body), o)
  {
    if body == [] {
      ReadNeutral("", rest, o);
      assert "" + rest == rest;
    } else {
      var tail := PutBody(body[1..], rest);
      ReadUnit(body[0], tail, o);
      ReadBody(body[1..], rest, o);
      Compose(PutBody(body, rest), tail, rest, UnitMarks(body[0]), BodyMarks(body[1..]), o);
    }
  }

  lemma ReadText(body: seq<Unit>, rest: string, o: char)
    requires IsOpener(o) && BodyOk(body)
    ensures ReadAs(PutText(body, rest), rest, TextMarks(body), o)
  {
    var inner := PutBody(body, ['"'] + rest);
    ReadQuote(inner, o);
    ReadBody(body, ['"'] + rest, o);
    ReadQuote(rest, o);
    Compose(inner, ['"'] + rest, rest, BodyMarks(body), [Quote], o);
    Compose(PutText(body, rest), inner, rest, [Quote], BodyMarks(body) + [Quote], o);
  }

  /** A neutral stretch in front of what has been read. */
  lemma ReadAfter(s: string, t: string, rest: string, ms: seq<Mark>, o: char)
    requires IsOpener(o) && Neutral(s) && ReadAs(t, rest, ms, o)
    ensures ReadAs(s + t, rest, ms, o)
  {
    ReadNeutral(s, t, o);
    Compose(s + t, t, rest, [], ms, o);
    assert [] + ms == ms;
  }

  /** A neutral stretch behind it. */
  lemma ReadBefore(t: string, s: string, rest: string, ms: seq<Mark>, o: char)
    requires IsOpener(o) && Neutral(s) && ReadAs(t, s + rest, ms, o)
    ensures ReadAs(t, rest, ms, o)
  {
    ReadNeutral(s, rest, o);
    Compose(t, s + rest, rest, ms, [], o);
    assert ms + [] == ms;
  }

  lemma {:induction false} ReadValue(v: Value, rest: string, o: char)
    requires IsOpener(o) && WellFormed(v)
    ensures ReadAs(Put(v, rest), rest, Marks(v), o)
    decreases v, 0
  {
    match v
    case Scalar(text) => ReadNeutral(text, rest, o);
    case Text(body) => ReadText(body, rest, o);
    case Array(pad, items) =>
      ReadItems(items, [']'] + rest, o);
      ReadAfter(pad, PutItems(items, [']'] + rest), [']'] + rest, ItemsMarks(items), o);
      ReadContainer('[', pad + PutItems(items, [']'] + rest), rest, ItemsMarks(items), o);
    case Object(pad, members) =>
      ReadMembers(members, ['}'] + rest, o);
      ReadAfter(pad, PutMembers(members, ['}'] + rest), ['}'] + rest, MembersMarks(members), o);
      ReadContainer('{', pad + PutMembers(members, ['}'] + rest), rest, MembersMarks(members), o);
  }

  lemma ReadContainer(opening: char, inner: string, rest: string, ms: seq<Mark>, o: char)
    requires IsOpener(o) && IsOpener(opening) && ReadAs(inner, [Closer(opening)] + rest, ms, o)
    ensures ReadAs([opening] + inner, rest, [Bracket(opening)] + (ms + [Bracket(Closer(opening))]), o)
  {
    ReadBracket(opening, inner, o);
    ReadBracket(Closer(opening), rest, o);
    Compose(inner, [Closer(opening)] + rest, rest, ms, [Bracket(Closer(opening))], o);
    Compose([opening] + inner, inner, rest, [Bracket(opening)], ms + [Bracket(Closer(opening))], o);
  }

  lemma {:induction false} ReadItems(items: Items, rest: string, o: char)
    requires IsOpener(o) && ItemsWellFormed(items)
    ensures ReadAs(PutItems(items, rest), rest, ItemsMarks(items), o)
    decreases items, 0
  {
    if items.NoItems? {
      ReadNeutral("", rest, o);
      assert "" + rest == rest;
    } else {
      var tail := PutItemsTail(items.rest, rest);
      var valueOn := Put(items.value, items.after + tail);
      ReadValue(items.value, items.after + tail, o);
      ReadBefore(valueOn, items.after, tail, Marks(items.value), o);
      ReadAfter(items.before, valueOn, tail, Marks(items.value), o);
      ReadItemsTail(items.rest, rest, o);
      Compose(PutItems(items, rest), tail, rest, Marks(items.value), ItemsMarks(items.rest), o);
    }
  }

  lemma {:induction false} ReadItemsTail(more: Items, rest: string, o: char)
    requires IsOpener(o) && ItemsWellFormed(more)
    ensures ReadAs(PutItemsTail(more, rest), rest, ItemsMarks(more), o)
    decreases more, 1
  {
    ReadItems(more, rest, o);
    if more.Item? {
      ReadAfter([','], PutItems(more, rest), rest, ItemsMarks(more), o);
    }
  }

  lemma {:induction false} ReadMembers(members: Members, rest: string, o: char)
    requires IsOpener(o) && MembersWellFormed(members)
    ensures ReadAs(PutMembers(members, rest), rest, MembersMarks(members), o)
    decreases members, 1
  {
    if members.NoMembers? {
      ReadNeutral("", rest, o);
      assert "" + rest == rest;
    } else {
      var tail := PutMembersTail(members.rest, rest);
      var colonOn := PutColonValue(members.beforeValue, members.value, members.after, tail);
      var textOn := PutText(members.key, members.afterKey + colonOn);
      ReadText(members.key, members.afterKey + colonOn, o);
      ReadBefore(textOn, members.afterKey, colonOn, TextMarks(members.key), o);
      ReadAfter(members.before, textOn, colonOn, TextMarks(members.key), o);
      ReadMemberValue(members, tail, o);
      ReadMembersTail(members.rest, rest, o);
      Compose(colonOn, tail, rest, Marks(members.value), MembersMarks(members.rest), o);
      Compose(PutMembers(members, rest), colonOn, rest, TextMarks(members.key),
              Marks(members.value) + MembersMarks(members.rest), o);
    }
  }

  /** The part of a member from its colon on. */
  lemma {:induction false} ReadMemberValue(members: Members, tail: string, o: char)
    requires IsOpener(o) && MembersWellFormed(members) && members.Member?
    ensures ReadAs(PutColonValue(members.beforeValue, members.value, members.after, tail), tail,
                   Marks(members.value), o)
    decreases members, 0
  {
    var ms, valueOn := Marks(members.value), Put(members.value, members.after + tail);
    ReadValue(members.value, members.after + tail, o);
    ReadBefore(valueOn, members.after, tail, ms, o);
    ReadAfter(members.beforeValue, valueOn, tail, ms, o);
    ReadAfter([':'], members.beforeValue + valueOn, tail, ms, o);
  }

  lemma {:induction false} ReadMembersTail(more: Members, rest: string, o: char)
    requires IsOpener(o) && MembersWellFormed(more)
    ensures ReadAs(PutMembersTail(more, rest), rest, MembersMarks(more), o)
    decreases more, 2
  {
    ReadMembers(more, rest, o);
    if more.Member? {
      ReadAfter([','], PutMembers(more, rest), rest, MembersMarks(more), o);
    }
  }

  lemma {:induction false} FromOpenerAfter(prefix: string, t: string)
    requires BracketFree(prefix)
    requires t != "" && IsOpener(t[0])
    ensures FromOpener(prefix + t) == t
  {
    if prefix == "" {
      assert prefix + t == t;
    } else {
      assert (prefix + t)[1..] == prefix[1..] + t;
      FromOpenerAfter(prefix[1..], t);
    }
  }

  // ----- When a printed value is extracted exactly -----

  function OpenerOf(v: Value): char {
    if v.Array? then '[' else '{'
  }

  /** The marks between the outer brackets of an object or array. */
  function InnerMarks(v: Value): seq<Mark>
    requires v.Array? || v.Object?
  {
    match v
    case Array(_, items) => ItemsMarks(items)
    case Object(_, members) => MembersMarks(members)
  }

  /** The value's own quotes and brackets, counted from its first bracket on, never close it before
      its last bracket and leave the count at one bracket open, outside of strings. */
  predicate Balanced(v: Value)
    requires v.Array? || v.Object?
  {
    Tallied(InnerMarks(v), Open(1, true), OpenerOf(v)) == Open(1, true)
  }

  /** What follows the first bracket of a value. */
  function AfterOpener(v: Value, suffix: string): string
    requires v.Array? || v.Object?
  {
    match v
    case Array(pad, items) => pad + PutItems(items, [']'] + suffix)
    case Object(pad, members) => pad + PutMembers(members, ['}'] + suffix)
  }

  lemma ReadInner(v: Value, suffix: string)
    requires WellFormed(v) && (v.Array? || v.Object?)
    ensures var o := OpenerOf(v);
            ReadAs(AfterOpener(v, suffix), [Closer(o)] + suffix, InnerMarks(v), o)
  {
    match v
    case Array(pad, items) =>
      ReadItems(items, [']'] + suffix, '[');
      ReadAfter(pad, PutItems(items, [']'] + suffix), [']'] + suffix, ItemsMarks(items), '[');
    case Object(pad, members) =>
      ReadMembers(members, ['}'] + suffix, '{');
      ReadAfter(pad, PutMembers(members, ['}'] + suffix), ['}'] + suffix, MembersMarks(members), '{');
  }

  /** Reading the last bracket ends the scan right behind it exactly when one bracket is open and one
      stands outside of strings. */
  lemma LastBracketCloses(r: Option<string>, suffix: string, k: Tally, o: char)
    requires IsOpener(o) && EndsAs(r, [Closer(o)] + suffix, k, o)
    ensures r == Some(suffix) <==> k == Open(1, true)
  {
    assert ([Closer(o)] + suffix)[1..] == suffix;
    if k.Open? {
      var d, m := k.depth, if k.outside then Outside else Inside;
      AfterBalancedIsSuffix(suffix, o, Closer(o), ScanDepth(Closer(o), o, Closer(o), d, m), ScanMode(Closer(o), m));
    }
  }

  lemma AfterBalancedIff(v: Value, suffix: string)
    requires WellFormed(v) && (v.Array? || v.Object?)
    ensures var t := Put(v, suffix);
            && t != "" && t[0] == OpenerOf(v)
            && (AfterBalanced(t, t[0], Closer(t[0]), 0, Outside) == Some(suffix) <==> Balanced(v))
  {
    var t, o, inner := Put(v, suffix), OpenerOf(v), AfterOpener(v, suffix);
    assert t == [o] + inner && t[1..] == inner;
    ReadInner(v, suffix);
    assert AfterBalanced(t, o, Closer(o), 0, Outside) == From(inner, Open(1, true), o);
    LastBracketCloses(From(inner, Open(1, true), o), suffix, Tallied(InnerMarks(v), Open(1, true), o), o);
  }

  lemma ExtractFromIff(t: string, s: string, rest: string)
    requires s != "" && t == s + rest
    ensures ExtractFrom(t) == Some(s) <==> AfterBalanced(t, t[0], Closer(t[0]), 0, Outside) == Some(rest)
  {
    AfterBalancedIsSuffix(t, t[0], Closer(t[0]), 0, Outside);
    var r := AfterBalanced(t, t[0], Closer(t[0]), 0, Outside);
    if r.Some? && ExtractFrom(t) == Some(s) {
      assert |r.value| == |rest|;
      assert r.value == t[|s|..] == rest;
    }
    if r == Some(rest) {
      assert t[..|s|] == s;
    }
  }

  /** Extraction returns exactly the object or array, whatever stands around it, if and only if the
      value's own quotes and brackets balance. Raw quotes are what can break that: they swap what
      counts as inside and outside of strings. */
  lemma ExtractExact(prefix: string, v: Value, suffix: string)
    requires WellFormed(v) && (v.Array? || v.Object?)
    requires BracketFree(prefix)
    ensures Extract(prefix + Print(v) + suffix) == Some(Print(v)) <==> Balanced(v)
  {
    var s := Print(v);
    PutSplit(v, suffix);
    AfterBalancedIff(v, suffix);
    AfterBalancedIff(v, "");
    FromOpenerAfter(prefix, s + suffix);
    Associate(prefix, s, suffix);
    ExtractFromIff(s + suffix, s, suffix);
  }

  // ----- Values that balance, and values that do not -----

  lemma {:induction false} PairedBodyTallies(body: seq<Unit>, inside: bool, depth: int, o: char)
    requires QuotesPaired(body, inside)
    ensures Tallied(BodyMarks(body), Open(depth, !inside), o) == Open(depth, false)
  {
    if body != [] {
      var u := body[0];
      var k := Open(depth, if u.RawQuote? then inside else !inside);
      TalliedAppend(UnitMarks(u), BodyMarks(body[1..]), Open(depth, !inside), o);
      assert Tallied(UnitMarks(u), Open(depth, !inside), o) == k by {
        if UnitMarks(u) != [] {
          assert UnitMarks(u)[1..] == [];
        }
      }
      PairedBodyTallies(body[1..], if u.RawQuote? then !inside else inside, depth, o);
    }
  }

  lemma PairedTextTallies(body: seq<Unit>, depth: int, o: char)
    requires QuotesPaired(body, true)
    ensures Tallied(TextMarks(body), Open(depth, true), o) == Open(depth, true)
  {
    TalliedAppend([Quote], BodyMarks(body) + [Quote], Open(depth, true), o);
    TalliedAppend(BodyMarks(body), [Quote], Open(depth, false), o);
    PairedBodyTallies(body, true, depth, o);
    assert [Quote][1..] == [];
    assert Tallied([Quote], Open(depth, true), o) == Open(depth, false);
    assert Tallied([Quote], Open(depth, false), o) == Open(depth, true);
  }

  /** Nested values, brackets in strings, escapes and quoted words leave the count as it was. */
  lemma {:induction false} PairedTallies(v: Value, depth: int, o: char)
    requires Paired(v) && depth >= 1 && IsOpener(o)
    ensures Tallied(Marks(v), Open(depth, true), o) == Open(depth, true)
  {
    match v
    case Scalar(_) =>
    case Text(body) => PairedTextTallies(body, depth, o);
    case Array(_, items) =>
      PairedItemsTally(items, if o == '[' then depth + 1 else depth, o);
      BracketsTally('[', ItemsMarks(items), depth, o);
    case Object(_, members) =>
      PairedMembersTally(members, if o == '{' then depth + 1 else depth, o);
      BracketsTally('{', MembersMarks(members), depth, o);
  }

  lemma BracketsTally(opening: char, ms: seq<Mark>, depth: int, o: char)
    requires IsOpener(o) && IsOpener(opening) && depth >= 1
    requires var k := Open(if o == opening then depth + 1 else depth, true);
             Tallied(ms, k, o) == k
    ensures Tallied([Bracket(opening)] + (ms + [Bracket(Closer(opening))]), Open(depth, true), o) == Open(depth, true)
  {
    var k, close := Open(if o == opening then depth + 1 else depth, true), [Bracket(Closer(opening))];
    TalliedAppend([Bracket(opening)], ms + close, Open(depth, true), o);
    TalliedAppend(ms, close, k, o);
    assert [Bracket(opening)][1..] == [] && close[1..] == [];
    assert Tallied([Bracket(opening)], Open(depth, true), o) == k;
    assert Tallied(close, k, o) == Open(depth, true);
  }

  lemma {:induction false} PairedItemsTally(items: Items, depth: int, o: char)
    requires ItemsPaired(items) && depth >= 1 && IsOpener(o)
    ensures Tallied(ItemsMarks(items), Open(depth, true), o) == Open(depth, true)
  {
    if items.Item? {
      PairedTallies(items.value, depth, o);
      PairedItemsTally(items.rest, depth, o);
      TalliedAppend(Marks(items.value), ItemsMarks(items.rest), Open(depth, true), o);
    }
  }

  lemma {:induction false} PairedMembersTally(members: Members, depth: int, o: char)
    requires MembersPaired(members) && depth >= 1 && IsOpener(o)
    ensures Tallied(MembersMarks(members), Open(depth, true), o) == Open(depth, true)
  {
    if members.Member? {
      PairedTextTallies(members.key, depth, o);
      PairedTallies(members.value, depth, o);
      PairedMembersTally(members.rest, depth, o);
      TalliedAppend(Marks(members.value), MembersMarks(members.rest), Open(depth, true), o);
      TalliedAppend(TextMarks(members.key), Marks(members.value) + MembersMarks(members.rest), Open(depth, true), o);
    }
  }

  /** Whatever quoted words of plain text its strings hold raw, the value balances. */
  lemma PairedBalances(v: Value)
    requires Paired(v) && (v.Array? || v.Object?)
    ensures Balanced(v)
  {
    match v
    case Array(_, items) => PairedItemsTally(items, 1, '[');
    case Object(_, members) => PairedMembersTally(members, 1, '{');
  }

  function Quotes(ms: seq<Mark>): nat {
    if ms == [] then 0 else (if ms[0].Quote? then 1 else 0) + Quotes(ms[1..])
  }

  predicate NoEscapedQuote(ms: seq<Mark>) {
    forall i | 0 <= i < |ms| :: !ms[i].EscapedQuote?
  }

  lemma {:induction false} QuotesSwap(ms: seq<Mark>, k: Tally, o: char)
    requires NoEscapedQuote(ms) && k.Open?
    ensures var k' := Tallied(ms, k, o);
            k'.Open? ==> (k'.outside == k.outside <==> Quotes(ms) % 2 == 0)
  {
    if ms != [] {
      var next := Count(k, ms[0], o);
      if next.Open? {
        QuotesSwap(ms[1..], next, o);
      } else {
        TalliedStaysClosed(ms[1..], o);
      }
    }
  }

  /** A value without escaped quotes and with an odd number of quotes, as one stray raw quote leaves
      it, is never extracted exactly: its last bracket is read as part of a string. */
  lemma OddQuotesAreNotExtracted(prefix: string, v: Value, suffix: string)
    requires WellFormed(v) && (v.Array? || v.Object?)
    requires NoEscapedQuote(InnerMarks(v)) && Quotes(InnerMarks(v)) % 2 == 1
    requires BracketFree(prefix)
    ensures Extract(prefix + Print(v) + suffix) != Some(Print(v))
  {
    ExtractExact(prefix, v, suffix);
    QuotesSwap(InnerMarks(v), Open(1, true), OpenerOf(v));
  }

  /** For one, the array of the string that is a single raw quote. */
  lemma LoneQuoteIsNotExtracted(v: Value)
    requires v == Array("", Item("", Text([RawQuote]), "", NoItems))
    ensures WellFormed(v) && Extract(Print(v)) != Some(Print(v))
  {
    var body := [RawQuote];
    assert body[1..] == [] && BodyMarks(body) == [Quote];
    assert TextMarks(body) == [Quote, Quote, Quote] && InnerMarks(v) == [Quote, Quote, Quote];
    var ms := InnerMarks(v);
    assert ms[1..] == [Quote, Quote] && ms[1..][1..] == [Quote] && ms[1..][1..][1..] == [];
    assert Quotes(ms) == 3;
    OddQuotesAreNotExtracted("", v, "");
    assert "" + Print(v) + "" == Print(v);
  }

  /** ... in particular for every valid JSON object or array. */
  lemma ExtractValid(prefix: string, v: Value, suffix: string)
    requires WellFormed(v) && Valid(v) && (v.Array? || v.Object?)
    requires BracketFree(prefix)
    ensures Extract(prefix + Print(v) + suffix) == Some(Print(v))
  {
    ValidIsPaired(v);
    PairedBalances(v);
    ExtractExact(prefix, v, suffix);
  }

  lemma {:induction false} AfterBalancedPrefix(t: string, o: char, c: char, depth: int, m: Mode, rest: string)
    requires AfterBalanced(t, o, c, depth, m) == Some(rest)
    ensures |rest| < |t| && AfterBalanced(t[..|t| - |rest|], o, c, depth, m) == Some("")
    decreases |t|
  {
    AfterBalancedIsSuffix(t, o, c, depth, m);
    var s := t[..|t| - |rest|];
    assert s[1..] == t[1..][..|t[1..]| - |rest|];
    var depth' := ScanDepth(t[0], o, c, depth, m);
    if !(depth' < depth && depth' == 0) {
      AfterBalancedPrefix(t[1..], o, c, depth', ScanMode(t[0], m), rest);
    }
  }

  /** For every text: the extracted piece stands in it and starts at its first bracket, and
      extracting from the piece gives the piece back. */
  lemma ExtractIdempotent(text: string)
    requires Extract(text).Some?
    ensures var s := Extract(text).value;
            && s != "" && s <= FromOpener(text)
            && Extract(s) == Some(s)
  {
    var t := FromOpener(text);
    var s := Extract(text).value;
    var k := FromOpenerIsFirst(text);
    ExtractFromIdempotent(t, s);
    assert s[0] == text[k];
  }

  lemma ExtractFromIdempotent(t: string, s: string)
    requires t != "" && ExtractFrom(t) == Some(s)
    ensures s != "" && s <= t && ExtractFrom(s) == Some(s)
  {
    AfterBalancedIsSuffix(t, t[0], Closer(t[0]), 0, Outside);
    var rest := AfterBalanced(t, t[0], Closer(t[0]), 0, Outside).value;
    AfterBalancedPrefix(t, t[0], Closer(t[0]), 0, Outside, rest);
    assert s == t[..|t| - |rest|] && s[0] == t[0];
    assert s + "" == s;
    ExtractFromIff(s, s, "");
  }

  /** Nothing is extracted from a text in which none starts. */
  lemma {:induction false} NothingToExtract(text: string)
    requires BracketFree(text)
    ensures Extract(text) == None
  {
    var k := FromOpenerIsFirst(text);
  }

  // ==================== Repair ====================

  /** Python's `str.isspace`. */
  predicate IsSpace(c: char) {
    || '\t' <= c <= '\r' || '\U{1C}' <= c <= ' ' || c == '\U{85}' || c == '\U{A0}'
    || c == '\U{1680}' || '\U{2000}' <= c <= '\U{200A}' || c == '\U{2028}' || c == '\U{2029}'
    || c == '\U{202F}' || c == '\U{205F}' || c == '\U{3000}'
  }

  /** ... that is, these characters and no others. */
  lemma SpacesAre(c: char)
    ensures IsSpace(c) <==> c in {
      '\U{9}', '\U{A}', '\U{B}', '\U{C}', '\U{D}', '\U{1C}', '\U{1D}', '\U{1E}', '\U{1F}', '\U{20}', '\U{85}', '\U{A0}',
      '\U{1680}', '\U{2000}', '\U{2001}', '\U{2002}', '\U{2003}', '\U{2004}', '\U{2005}', '\U{2006}', '\U{2007}',
      '\U{2008}', '\U{2009}', '\U{200A}', '\U{2028}', '\U{2029}', '\U{202F}', '\U{205F}', '\U{3000}' }
  {
  }

  function NextSignificant(t: string): Option<char> {
    if t == "" then None else if !IsSpace(t[0]) then Some(t[0]) else NextSignificant(t[1..])
  }

  method NextSignificantChar(text: string, start: nat) returns (r: Option<char>)
    requires start <= |text|
    ensures r == NextSignificant(text[start..])
  {
    for index := start to |text|
      invariant NextSignificant(text[start..]) == NextSignificant(text[index..])
    {
      assert text[index..][1..] == text[index + 1..];
      if !IsSpace(text[index]) {
        return Some(text[index]);
      }
    }
    return None;
  }

  predicate IsDelimiter(c: char) {
    c == ',' || c == '}' || c == ']' || c == ':'
  }

  /** A quote followed by this text ends its string. */
  predicate Closes(t: string) {
    var next := NextSignificant(t);
    next.None? || IsDelimiter(next.value)
  }

  /** What the scanner writes for the character `c` when `rest` follows it ... */
  function Emitted(c: char, rest: string, m: Mode): string {
    if m == Inside && c == '"' && !Closes(rest) then "\\\"" else [c]
  }

  /** ... and where it stands afterwards. */
  function NextMode(c: char, rest: string, m: Mode): Mode {
    match m
    case Outside => if c == '"' then Inside else Outside
    case Escaped => Inside
    case Inside => if c == '\\' then Escaped else if c == '"' && Closes(rest) then Outside else Inside
  }

  /** The repaired form of the text still to be read. */
  function RepairFrom(t: string, m: Mode): string {
    if t == "" then ""
    else Emitted(t[0], t[1..], m) + RepairFrom(t[1..], NextMode(t[0], t[1..], m))
  }

  function Repair(text: string): string {
    RepairFrom(text, Outside)
  }

  method RepairUnescapedInnerQuotes(text: string) returns (out: string)
    ensures out == Repair(text)
  {
    var chars: string := "";
    var inString, escaped := false, false;
    var index := 0;
    while index < |text|
      invariant 0 <= index <= |text|
      invariant Repair(text) == chars + RepairFrom(text[index..], ModeOf(inString, escaped))
      invariant !inString ==> !escaped
    {
      var ch := text[index];
      assert text[index..][1..] == text[index + 1..];
      ghost var before, emitted := chars, Emitted(ch, text[index + 1..], ModeOf(inString, escaped));
      ghost var nextMode := NextMode(ch, text[index + 1..], ModeOf(inString, escaped));
      if !inString {
        chars := chars + [ch];
        if ch == '"' {
          inString := true;
          escaped := false;
        }
      } else if escaped {
        chars := chars + [ch];
        escaped := false;
      } else if ch == '\\' {
        chars := chars + [ch];
        escaped := true;
      } else if ch == '"' {
        var next := NextSignificantChar(text, index + 1);
        if next.None? || IsDelimiter(next.value) {
          chars := chars + [ch];
          inString := false;
        } else {
          chars := chars + "\\\"";
        }
      } else {
        chars := chars + [ch];
      }
      assert chars == before + emitted && ModeOf(inString, escaped) == nextMode;
      Associate(before, emitted, RepairFrom(text[index + 1..], nextMode));
      index := index + 1;
    }
    out := chars;
  }

  // ----- Properties for every text -----

  lemma {:induction false} RepairKeepsNextSignificant(t: string)
    ensures NextSignificant(Repair(t)) == NextSignificant(t)
  {
    if t != "" && IsSpace(t[0]) {
      assert Repair(t)[1..] == Repair(t[1..]);
      RepairKeepsNextSignificant(t[1..]);
    }
  }

  lemma {:induction false} RepairFromIdempotent(t: string, m: Mode)
    ensures RepairFrom(RepairFrom(t, m), m) == RepairFrom(t, m)
  {
    if t != "" {
      var c, rest := t[0], t[1..];
      var r, next := RepairFrom(t, m), NextMode(c, rest, m);
      RepairFromIdempotent(rest, next);
      if Emitted(c, rest, m) == [c] {
        assert r[0] == c && r[1..] == RepairFrom(rest, next);
        RepairKeepsNextSignificant(rest);
        assert NextMode(c, r[1..], m) == next && Emitted(c, r[1..], m) == [c];
      } else {
        RepairEscapedQuote(RepairFrom(rest, Inside));
      }
    }
  }

  lemma RepairEscapedQuote(rest: string)
    ensures RepairFrom("\\\"" + rest, Inside) == "\\\"" + RepairFrom(rest, Inside)
  {
  }

  /** Repairing twice is repairing once, on every text. */
  lemma RepairIdempotent(text: string)
    ensures Repair(Repair(text)) == Repair(text)
  {
    RepairFromIdempotent(text, Outside);
  }

  /** `out` is `t` with backslashes inserted before some of its quotes and nothing else. */
  predicate OnlyEscapesQuotes(t: string, out: string) {
    if t == "" then out == ""
    else
      || (out != "" && out[0] == t[0] && OnlyEscapesQuotes(t[1..], out[1..]))
      || (t[0] == '"' && "\\\"" <= out && OnlyEscapesQuotes(t[1..], out[2..]))
  }

  lemma {:induction false} RepairFromOnlyEscapesQuotes(t: string, m: Mode)
    ensures OnlyEscapesQuotes(t, RepairFrom(t, m))
  {
    if t != "" {
      var c, rest := t[0], t[1..];
      var r, next := RepairFrom(t, m), NextMode(c, rest, m);
      RepairFromOnlyEscapesQuotes(rest, next);
      if Emitted(c, rest, m) == [c] {
        assert r[1..] == RepairFrom(rest, next);
      } else {
        assert r[2..] == RepairFrom(rest, next);
      }
    }
  }

  /** On every text the repair only ever inserts a backslash in front of a quote. */
  lemma RepairOnlyEscapesQuotes(text: string)
    ensures OnlyEscapesQuotes(text, Repair(text))
  {
    RepairFromOnlyEscapesQuotes(text, Outside);
  }

  // ----- When a printed value is repaired exactly -----

  /** After plain spaces only, unit `j` is a plain `,` `}` `]` or `:`. */
  predicate DelimiterAt(units: seq<Unit>, j: nat)
    requires j < |units|
  {
    && units[j].Plain?
    && (units[j].c == ',' || units[j].c == '}' || units[j].c == ']' || units[j].c == ':')
    && forall k | 0 <= k < j :: units[k].Plain? && IsSpace(units[k].c)
  }

  /** The first of the units that is not a plain space is such a delimiter. The end of the string, an
      escape and a raw quote are none. */
  predicate DelimiterAhead(units: seq<Unit>) {
    exists j | 0 <= j < |units| :: DelimiterAt(units, j)
  }

  /** No raw quote of the string is followed, after spaces, by one of these delimiters. */
  predicate SafeBody(body: seq<Unit>) {
    forall i | 0 <= i < |body| && body[i].RawQuote? :: !DelimiterAhead(body[i + 1..])
  }

  /** The same as the scanner tests it. */
  predicate ScannedSafe(body: seq<Unit>) {
    body != [] ==>
      && (body[0].RawQuote? ==> !Closes(PutBody(body[1..], "\"")))
      && ScannedSafe(body[1..])
  }

  lemma DelimiterAheadSteps(units: seq<Unit>)
    requires units != [] && units[0].Plain? && IsSpace(units[0].c)
    ensures DelimiterAhead(units) <==> DelimiterAhead(units[1..])
  {
    var rest := units[1..];
    assert !DelimiterAt(units, 0);
    forall j | 0 <= j < |rest|
      ensures DelimiterAt(units, j + 1) <==> DelimiterAt(rest, j)
    {
      assert forall k | 0 < k < j + 1 :: units[k] == rest[k - 1];
      assert forall k | 0 <= k < j :: rest[k] == units[k + 1];
    }
    if DelimiterAhead(units) {
      var j :| 0 <= j < |units| && DelimiterAt(units, j);
      assert DelimiterAt(rest, j - 1);
    }
  }

  lemma {:induction false} ClosesIffDelimiterAhead(units: seq<Unit>)
    requires BodyOk(units)
    ensures Closes(PutBody(units, "\"")) <==> DelimiterAhead(units)
  {
    if units != [] {
      var t := PutBody(units, "\"");
      assert DelimiterAt(units, 0) ==> DelimiterAhead(units);
      if units[0].Plain? {
        assert t[1..] == PutBody(units[1..], "\"");
        if IsSpace(units[0].c) {
          ClosesIffDelimiterAhead(units[1..]);
          DelimiterAheadSteps(units);
        } else {
          assert NextSignificant(t) == Some(units[0].c);
          assert DelimiterAhead(units) ==> DelimiterAt(units, 0);
        }
      } else {
        assert t[0] == '"' || t[0] == '\\';
        assert NextSignificant(t) == Some(t[0]);
      }
    }
  }

  lemma {:induction false} SafeBodyIffScanned(body: seq<Unit>)
    requires BodyOk(body)
    ensures SafeBody(body) <==> ScannedSafe(body)
  {
    if body != [] {
      var rest := body[1..];
      SafeBodyIffScanned(rest);
      ClosesIffDelimiterAhead(rest);
      assert forall i | 0 <= i < |rest| :: rest[i + 1..] == body[i + 2..] && rest[i] == body[i + 1];
      if SafeBody(rest) && (body[0].RawQuote? ==> !DelimiterAhead(rest)) {
        forall i | 0 <= i < |body| && body[i].RawQuote?
          ensures !DelimiterAhead(body[i + 1..])
        {
          if i > 0 {
            assert rest[i - 1].RawQuote? && rest[i - 1 + 1..] == body[i + 1..];
          }
        }
      }
      if SafeBody(body) {
        assert body[0 + 1..] == rest;
        forall i | 0 <= i < |rest| && rest[i].RawQuote?
          ensures !DelimiterAhead(rest[i + 1..])
        {
          assert body[i + 1].RawQuote? && body[i + 1 + 1..] == rest[i + 1..];
        }
      }
    }
  }

  predicate Safe(v: Value) {
    match v
    case Scalar(_) => true
    case Text(body) => SafeBody(body)
    case Array(_, items) => ItemsSafe(items)
    case Object(_, members) => MembersSafe(members)
  }

  predicate ItemsSafe(items: Items) {
    items.Item? ==> Safe(items.value) && ItemsSafe(items.rest)
  }

  predicate MembersSafe(members: Members) {
    members.Member? ==> SafeBody(members.key) && Safe(members.value) && MembersSafe(members.rest)
  }

  lemma {:induction false} RepairNeutral(s: string, rest: string)
    requires forall i | 0 <= i < |s| :: s[i] != '"'
    ensures Repair(s + rest) == s + Repair(rest)
  {
    if s == "" {
      assert s + rest == rest && s + Repair(rest) == Repair(rest);
    } else {
      assert (s + rest)[1..] == s[1..] + rest;
      RepairNeutral(s[1..], rest);
      assert s + Repair(rest) == [s[0]] + (s[1..] + Repair(rest));
    }
  }

  lemma {:induction false} RepairHex(digits: string, rest: string)
    requires forall i | 0 <= i < |digits| :: HexDigit(digits[i])
    ensures RepairFrom(digits + rest, Inside) == digits + RepairFrom(rest, Inside)
  {
    if digits == "" {
      assert digits + rest == rest && digits + RepairFrom(rest, Inside) == RepairFrom(rest, Inside);
    } else {
      assert (digits + rest)[1..] == digits[1..] + rest;
      RepairHex(digits[1..], rest);
      assert digits + RepairFrom(rest, Inside) == [digits[0]] + (digits[1..] + RepairFrom(rest, Inside));
    }
  }

  lemma {:induction false} NextSignificantInBody(body: seq<Unit>, x: string, y: string)
    requires BodyOk(body)
    requires x != "" && y != "" && x[0] == y[0] && !IsSpace(x[0])
    ensures NextSignificant(PutBody(body, x)) == NextSignificant(PutBody(body, y))
  {
    if body != [] {
      NextSignificantInBody(body[1..], x, y);
      if body[0].Plain? {
        assert PutBody(body, x)[1..] == PutBody(body[1..], x);
        assert PutBody(body, y)[1..] == PutBody(body[1..], y);
      }
    }
  }

  lemma {:induction false} BlankNextSignificant(s: string, rest: string)
    requires Blank(s)
    ensures NextSignificant(s + rest) == NextSignificant(rest)
  {
    if s == "" {
      assert s + rest == rest;
    } else {
      assert (s + rest)[1..] == s[1..] + rest;
      BlankNextSignificant(s[1..], rest);
    }
  }

  /** One unit that is not a raw quote is copied. */
  lemma RepairUnit(u: Unit, rest: string)
    requires UnitOk(u) && !u.RawQuote?
    ensures RepairFrom(PutUnit(u, rest), Inside) == PutUnit(u, RepairFrom(rest, Inside))
  {
    match u
    case Plain(c) => assert ([c] + rest)[1..] == rest;
    case Escape(c) =>
      assert (['\\'] + ([c] + rest))[1..] == [c] + rest;
      assert ([c] + rest)[1..] == rest;
    case Hex(digits) =>
      assert (['\\'] + (['u'] + (digits + rest)))[1..] == ['u'] + (digits + rest);
      assert (['u'] + (digits + rest))[1..] == digits + rest;
      RepairHex(digits, rest);
  }

  lemma FixBodySteps(body: seq<Unit>)
    requires body != []
    ensures FixBody(body)[0] == if body[0].RawQuote? then Escape('"') else body[0]
    ensures FixBody(body)[1..] == FixBody(body[1..])
  {
  }

  lemma {:induction false} RepairBody(body: seq<Unit>, rest: string, x: string)
    requires BodyOk(body) && rest != "" && rest[0] == '"'
    ensures ScannedSafe(body) ==>
              RepairFrom(PutBody(body, rest), Inside) == PutBody(FixBody(body), RepairFrom(rest, Inside))
    ensures !ScannedSafe(body) ==> RepairFrom(PutBody(body, rest), Inside) != PutBody(FixBody(body), x)
    decreases body
  {
    if body != [] {
      var u, tail := body[0], PutBody(body[1..], rest);
      FixBodySteps(body);
      RepairBody(body[1..], rest, x);
      if u.RawQuote? {
        NextSignificantInBody(body[1..], rest, "\"");
        RepairRawQuote(tail, PutBody(FixBody(body[1..]), x));
      } else {
        RepairUnit(u, tail);
        PutUnitInjective(u, RepairFrom(tail, Inside), PutBody(FixBody(body[1..]), x));
      }
    } else {
      assert FixBody(body) == [];
    }
  }

  /** A raw quote is escaped exactly when the text after it does not make it look closing. */
  lemma RepairRawQuote(tail: string, x: string)
    ensures !Closes(tail) ==>
              RepairFrom(PutUnit(RawQuote, tail), Inside) == PutUnit(Escape('"'), RepairFrom(tail, Inside))
    ensures Closes(tail) || RepairFrom(tail, Inside) != x ==>
              RepairFrom(PutUnit(RawQuote, tail), Inside) != PutUnit(Escape('"'), x)
  {
    assert (['"'] + tail)[1..] == tail;
    if Closes(tail) {
      assert RepairFrom(PutUnit(RawQuote, tail), Inside)[0] == '"';
    } else {
      assert "\\\"" + RepairFrom(tail, Inside) == PutUnit(Escape('"'), RepairFrom(tail, Inside));
      PutUnitInjective(Escape('"'), RepairFrom(tail, Inside), x);
    }
  }

  lemma PrependInjective(s: string, a: string, b: string)
    ensures s + a == s + b <==> a == b
  {
    if s + a == s + b {
      assert a == (s + a)[|s|..];
      assert b == (s + b)[|s|..];
    }
  }

  lemma PutUnitInjective(u: Unit, a: string, b: string)
    ensures PutUnit(u, a) == PutUnit(u, b) <==> a == b
  {
    match u
    case Plain(c) => PrependInjective([c], a, b);
    case RawQuote => PrependInjective(['"'], a, b);
    case Escape(c) =>
      PrependInjective(['\\'], [c] + a, [c] + b);
      PrependInjective([c], a, b);
    case Hex(digits) =>
      PrependInjective(['\\'], ['u'] + (digits + a), ['u'] + (digits + b));
      PrependInjective(['u'], digits + a, digits + b);
      PrependInjective(digits, a, b);
  }

  lemma PutInjective(v: Value, a: string, b: string)
    ensures Put(v, a) == Put(v, b) <==> a == b
  {
    PutSplit(v, a);
    PutSplit(v, b);
    PrependInjective(Print(v), a, b);
  }

  lemma PutTextInjective(body: seq<Unit>, a: string, b: string)
    ensures PutText(body, a) == PutText(body, b) <==> a == b
  {
    PutTextSplit(body, a);
    PutTextSplit(body, b);
    PrependInjective(PutText(body, ""), a, b);
  }

  /** A string whose closing quote is followed by `rest`. */
  lemma RepairText(body: seq<Unit>, rest: string, x: string)
    requires BodyOk(body) && Closes(rest)
    ensures SafeBody(body) ==> Repair(PutText(body, rest)) == PutText(FixBody(body), Repair(rest))
    ensures !SafeBody(body) ==> Repair(PutText(body, rest)) != PutText(FixBody(body), x)
  {
    var quoteOn := ['"'] + rest;
    SafeBodyIffScanned(body);
    assert PutText(body, rest)[1..] == PutBody(body, quoteOn);
    assert quoteOn[1..] == rest;
    assert RepairFrom(quoteOn, Inside) == ['"'] + Repair(rest);
    RepairBody(body, quoteOn, ['"'] + x);
    PrependInjective(['"'], RepairFrom(PutBody(body, quoteOn), Inside), PutBody(FixBody(body), ['"'] + x));
  }

  /** An opening bracket and the blank after it are copied. */
  lemma RepairOpening(opening: char, pad: string, inner: string, x: string)
    requires opening != '"' && Blank(pad)
    ensures Repair([opening] + (pad + inner)) == [opening] + (pad + Repair(inner))
    ensures Repair(inner) != x ==> Repair([opening] + (pad + inner)) != [opening] + (pad + x)
  {
    RepairNeutral([opening], pad + inner);
    RepairNeutral(pad, inner);
    PrependInjective([opening], pad + Repair(inner), pad + x);
    PrependInjective(pad, Repair(inner), x);
  }

  /** The scanner copies a value, fixing its strings, exactly when no raw quote in it looks
      like a closing one. */
  lemma {:induction false} RepairValue(v: Value, rest: string, x: string)
    requires WellFormed(v) && Closes(rest)
    ensures Safe(v) ==> Repair(Put(v, rest)) == Put(Fix(v), Repair(rest))
    ensures !Safe(v) ==> Repair(Put(v, rest)) != Put(Fix(v), x)
    decreases v, 0
  {
    match v
    case Scalar(text) => RepairNeutral(text, rest);
    case Text(body) => RepairText(body, rest, x);
    case Array(pad, items) =>
      RepairNeutral([']'], rest);
      RepairItems(items, [']'] + rest, [']'] + x);
      RepairOpening('[', pad, PutItems(items, [']'] + rest), PutItems(FixItems(items), [']'] + x));
    case Object(pad, members) =>
      RepairNeutral(['}'], rest);
      RepairMembers(members, ['}'] + rest, ['}'] + x);
      RepairOpening('{', pad, PutMembers(members, ['}'] + rest), PutMembers(FixMembers(members), ['}'] + x));
  }

  lemma {:induction false} RepairItems(items: Items, rest: string, x: string)
    requires ItemsWellFormed(items) && Closes(rest)
    ensures ItemsSafe(items) ==> Repair(PutItems(items, rest)) == PutItems(FixItems(items), Repair(rest))
    ensures !ItemsSafe(items) ==> Repair(PutItems(items, rest)) != PutItems(FixItems(items), x)
    decreases items, 0
  {
    if items.Item? {
      var tail := PutItemsTail(items.rest, rest);
      var xTail := PutItemsTail(FixItems(items.rest), x);
      RepairItemsTail(items.rest, rest, x);
      BlankNextSignificant(items.after, tail);
      RepairNeutral(items.before, Put(items.value, items.after + tail));
      RepairNeutral(items.after, tail);
      RepairValue(items.value, items.after + tail, items.after + xTail);
      PrependInjective(items.before, Repair(Put(items.value, items.after + tail)),
                       Put(Fix(items.value), items.after + xTail));
      PutInjective(Fix(items.value), items.after + Repair(tail), items.after + xTail);
      PrependInjective(items.after, Repair(tail), xTail);
    }
  }

  lemma {:induction false} RepairItemsTail(more: Items, rest: string, x: string)
    requires ItemsWellFormed(more) && Closes(rest)
    ensures Closes(PutItemsTail(more, rest))
    ensures ItemsSafe(more) ==>
              Repair(PutItemsTail(more, rest)) == PutItemsTail(FixItems(more), Repair(rest))
    ensures !ItemsSafe(more) ==> Repair(PutItemsTail(more, rest)) != PutItemsTail(FixItems(more), x)
    decreases more, 1
  {
    if more.Item? {
      RepairItems(more, rest, x);
      RepairNeutral([','], PutItems(more, rest));
      PrependInjective([','], Repair(PutItems(more, rest)), PutItems(FixItems(more), x));
    }
  }

  lemma {:induction false} RepairMembers(members: Members, rest: string, x: string)
    requires MembersWellFormed(members) && Closes(rest)
    ensures MembersSafe(members) ==>
              Repair(PutMembers(members, rest)) == PutMembers(FixMembers(members), Repair(rest))
    ensures !MembersSafe(members) ==> Repair(PutMembers(members, rest)) != PutMembers(FixMembers(members), x)
    decreases members, 1
  {
    if members.Member? {
      var tail := PutMembersTail(members.rest, rest);
      var xTail := PutMembersTail(FixMembers(members.rest), x);
      RepairMembersTail(members.rest, rest, x);
      RepairMemberValue(members, tail, xTail);
      var colonOn := PutColonValue(members.beforeValue, members.value, members.after, tail);
      var xColon := PutColonValue(members.beforeValue, Fix(members.value), members.after, xTail);
      BlankNextSignificant(members.afterKey, colonOn);
      RepairNeutral(members.before, PutText(members.key, members.afterKey + colonOn));
      RepairNeutral(members.afterKey, colonOn);
      RepairText(members.key, members.afterKey + colonOn, members.afterKey + xColon);
      PrependInjective(members.before, Repair(PutText(members.key, members.afterKey + colonOn)),
                       PutText(FixBody(members.key), members.afterKey + xColon));
      PutTextInjective(FixBody(members.key), members.afterKey + Repair(colonOn), members.afterKey + xColon);
      PrependInjective(members.afterKey, Repair(colonOn), xColon);
    }
  }

  /** The part of a member from its colon on. */
  lemma {:induction false} RepairMemberValue(members: Members, tail: string, xTail: string)
    requires MembersWellFormed(members) && members.Member? && Closes(tail)
    ensures var colonOn := PutColonValue(members.beforeValue, members.value, members.after, tail);
            var fixed := Fix(members.value);
            var xColon := PutColonValue(members.beforeValue, fixed, members.after, xTail);
            && (Safe(members.value) ==>
                  Repair(colonOn) == PutColonValue(members.beforeValue, fixed, members.after, Repair(tail)))
            && (Safe(members.value) && Repair(tail) != xTail ==> Repair(colonOn) != xColon)
            && (!Safe(members.value) ==> Repair(colonOn) != xColon)
    decreases members, 0
  {
    var valueOn := Put(members.value, members.after + tail);
    var fixed := Fix(members.value);
    BlankNextSignificant(members.after, tail);
    RepairNeutral([':'], members.beforeValue + valueOn);
    RepairNeutral(members.beforeValue, valueOn);
    RepairNeutral(members.after, tail);
    RepairValue(members.value, members.after + tail, members.after + xTail);
    PrependInjective([':'], members.beforeValue + Repair(valueOn),
                     members.beforeValue + Put(fixed, members.after + xTail));
    PrependInjective(members.beforeValue, Repair(valueOn), Put(fixed, members.after + xTail));
    PutInjective(fixed, members.after + Repair(tail), members.after + xTail);
    PrependInjective(members.after, Repair(tail), xTail);
  }

  lemma {:induction false} RepairMembersTail(more: Members, rest: string, x: string)
    requires MembersWellFormed(more) && Closes(rest)
    ensures Closes(PutMembersTail(more, rest))
    ensures MembersSafe(more) ==>
              Repair(PutMembersTail(more, rest)) == PutMembersTail(FixMembers(more), Repair(rest))
    ensures !MembersSafe(more) ==> Repair(PutMembersTail(more, rest)) != PutMembersTail(FixMembers(more), x)
    decreases more, 2
  {
    if more.Member? {
      RepairMembers(more, rest, x);
      RepairNeutral([','], PutMembers(more, rest));
      PrependInjective([','], Repair(PutMembers(more, rest)), PutMembers(FixMembers(more), x));
    }
  }

  /** The repair turns a value printed with raw inner quotes into its correctly escaped print
      if and only if no raw quote is followed, after spaces, by `,` `}` `]` or `:`. */
  lemma RepairExact(lead: string, v: Value, trail: string)
    requires WellFormed(v) && Blank(lead) && Blank(trail)
    ensures Repair(lead + Print(v) + trail) == lead + Print(Fix(v)) + trail <==> Safe(v)
  {
    PutSplit(v, trail);
    PutSplit(Fix(v), trail);
    assert lead + Print(v) + trail == lead + Put(v, trail);
    assert lead + Print(Fix(v)) + trail == lead + Put(Fix(v), trail);
    BlankNextSignificant(trail, "");
    assert trail + "" == trail;
    RepairNeutral(lead, Put(v, trail));
    RepairNeutral(trail, "");
    RepairValue(v, trail, trail);
    PrependInjective(lead, Repair(Put(v, trail)), Put(Fix(v), trail));
  }

  lemma NoRawQuoteIsSafe(body: seq<Unit>)
    requires RawQuote !in body
    ensures SafeBody(body)
  {
    assert forall i | 0 <= i < |body| :: body[i] in body;
  }

  lemma {:induction false} ValidIsSafe(v: Value)
    requires Valid(v)
    ensures Safe(v)
  {
    match v
    case Scalar(_) =>
    case Text(body) => NoRawQuoteIsSafe(body);
    case Array(_, items) => ValidItemsSafe(items);
    case Object(_, members) => ValidMembersSafe(members);
  }

  lemma {:induction false} ValidItemsSafe(items: Items)
    requires FixItems(items) == items
    ensures ItemsSafe(items)
  {
    if items.Item? {
      ValidIsSafe(items.value);
      ValidItemsSafe(items.rest);
    }
  }

  lemma {:induction false} ValidMembersSafe(members: Members)
    requires FixMembers(members) == members
    ensures MembersSafe(members)
  {
    if members.Member? {
      NoRawQuoteIsSafe(members.key);
      ValidIsSafe(members.value);
      ValidMembersSafe(members.rest);
    }
  }

  /** Every valid JSON text, with any whitespace RFC 8259 allows, is left unchanged. */
  lemma RepairKeepsValidJson(lead: string, v: Value, trail: string)
    requires WellFormed(v) && Valid(v) && Blank(lead) && Blank(trail)
    ensures Repair(lead + Print(v) + trail) == lead + Print(v) + trail
  {
    ValidIsSafe(v);
    RepairExact(lead, v, trail);
  }

  /** Both scanners together: an object or array with raw quotes inside its strings, lost in
      chatter, is cut out exactly and comes back correctly escaped if and only if its quotes and
      brackets balance and no raw quote is followed, after spaces, by a delimiter. */
  lemma RecoverExact(prefix: string, v: Value, suffix: string)
    requires WellFormed(v) && (v.Array? || v.Object?)
    requires BracketFree(prefix)
    ensures Extract(prefix + Print(v) + suffix) == Some(Print(v)) && Repair(Print(v)) == Print(Fix(v))
       <==> Balanced(v) && Safe(v)
  {
    ExtractExact(prefix, v, suffix);
    RepairWhole(v);
  }

  lemma RepairWhole(v: Value)
    requires WellFormed(v)
    ensures Repair(Print(v)) == Print(Fix(v)) <==> Safe(v)
  {
    RepairExact("", v, "");
    assert "" + Print(v) + "" == Print(v) && "" + Print(Fix(v)) + "" == Print(Fix(v));
  }
}
