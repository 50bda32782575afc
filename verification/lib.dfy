/** The query text splitter and generator (src/lib.rs): a query is cut into
    literal text and placeholders (`?` or `:name`) outside quotes and comments,
    and the SQL sent to the server is the literal text with each placeholder
    replaced by the encoding of the matching argument. */
module Lib {
  import opened Common
  import opened ToSql

  datatype TextPiece = Literal(text: string) | Placeholder

  /** The pieces of a query and, per placeholder in order, its name (`None` for `?`). */
  datatype ParsedQuery = ParsedQuery(pieces: seq<TextPiece>, params: seq<Option<string>>)

  // ---------------------------------------------------------------------------
  // Reading the pieces back
  // ---------------------------------------------------------------------------

  function PlaceholderCount(pieces: seq<TextPiece>): nat
  {
    if pieces == [] then 0
    else PlaceholderCount(pieces[..|pieces| - 1]) + (if pieces[|pieces| - 1].Placeholder? then 1 else 0)
  }

  /** The text made of the literals, with the k-th placeholder replaced by `fills[k]`. */
  function Fill(pieces: seq<TextPiece>, fills: seq<string>): string
    requires PlaceholderCount(pieces) == |fills|
  {
    if pieces == [] then []
    else
      var init := pieces[..|pieces| - 1];
      match pieces[|pieces| - 1]
      case Literal(s) => Fill(init, fills) + s
      case Placeholder => Fill(init, fills[..|fills| - 1]) + fills[|fills| - 1]
  }

  /** Where, in `Fill(pieces, fills)`, each placeholder's fill starts. */
  function Offsets(pieces: seq<TextPiece>, fills: seq<string>): (o: seq<nat>)
    requires PlaceholderCount(pieces) == |fills|
    ensures |o| == |fills|
  {
    if pieces == [] then []
    else
      var init := pieces[..|pieces| - 1];
      match pieces[|pieces| - 1]
      case Literal(_) => Offsets(init, fills)
      case Placeholder => Offsets(init, fills[..|fills| - 1]) + [|Fill(init, fills[..|fills| - 1])|]
  }

  /** The text a placeholder was written as. */
  function Token(name: Option<string>): string
  {
    match name
    case None => "?"
    case Some(n) => ":" + n
  }

  function Tokens(params: seq<Option<string>>): (t: seq<string>)
    ensures |t| == |params|
  {
    if params == [] then [] else Tokens(params[..|params| - 1]) + [Token(params[|params| - 1])]
  }

  predicate Consistent(q: ParsedQuery)
  {
    PlaceholderCount(q.pieces) == |q.params|
  }

  /** The query text the pieces stand for. */
  function Render(q: ParsedQuery): string
    requires Consistent(q)
  {
    Fill(q.pieces, Tokens(q.params))
  }

  function PlaceholderOffsets(q: ParsedQuery): seq<nat>
    requires Consistent(q)
  {
    Offsets(q.pieces, Tokens(q.params))
  }

  lemma AppendLiteral(pieces: seq<TextPiece>, fills: seq<string>, s: string)
    requires PlaceholderCount(pieces) == |fills|
    ensures PlaceholderCount(pieces + [Literal(s)]) == |fills|
    ensures Fill(pieces + [Literal(s)], fills) == Fill(pieces, fills) + s
    ensures Offsets(pieces + [Literal(s)], fills) == Offsets(pieces, fills)
  {
    assert (pieces + [Literal(s)])[..|pieces|] == pieces;
  }

  lemma AppendPlaceholder(pieces: seq<TextPiece>, fills: seq<string>, t: string)
    requires PlaceholderCount(pieces) == |fills|
    ensures PlaceholderCount(pieces + [Placeholder]) == |fills| + 1
    ensures Fill(pieces + [Placeholder], fills + [t]) == Fill(pieces, fills) + t
    ensures Offsets(pieces + [Placeholder], fills + [t]) == Offsets(pieces, fills) + [|Fill(pieces, fills)|]
  {
    assert (pieces + [Placeholder])[..|pieces|] == pieces;
    assert (fills + [t])[..|fills|] == fills;
  }

  lemma TokensAppend(params: seq<Option<string>>, name: Option<string>)
    ensures Tokens(params + [name]) == Tokens(params) + [Token(name)]
  {
    assert (params + [name])[..|params|] == params;
  }

  lemma SliceOfPrefix(a: string, b: string, lo: nat, hi: nat)
    requires lo <= hi <= |a|
    ensures (a + b)[lo..hi] == a[lo..hi]
  {
  }

  lemma SliceOfSuffix(a: string, b: string)
    ensures (a + b)[|a|..|a| + |b|] == b
  {
  }

  /** Each placeholder's fill sits in the filled text exactly at its offset. */
  lemma {:induction false} FillAtOffsets(pieces: seq<TextPiece>, fills: seq<string>, k: nat)
    requires PlaceholderCount(pieces) == |fills| && k < |fills|
    ensures Offsets(pieces, fills)[k] + |fills[k]| <= |Fill(pieces, fills)|
    ensures Fill(pieces, fills)[Offsets(pieces, fills)[k]..Offsets(pieces, fills)[k] + |fills[k]|] == fills[k]
  {
    assert pieces != [];
    var init := pieces[..|pieces| - 1];
    match pieces[|pieces| - 1]
    case Literal(s) =>
      FillAtOffsets(init, fills, k);
      var o := Offsets(init, fills)[k];
      SliceOfPrefix(Fill(init, fills), s, o, o + |fills[k]|);
    case Placeholder =>
      var f := fills[..|fills| - 1];
      var last := fills[|fills| - 1];
      assert Fill(pieces, fills) == Fill(init, f) + last;
      if k < |f| {
        FillAtOffsets(init, f, k);
        assert fills[k] == f[k];
        var o := Offsets(init, f)[k];
        assert Offsets(pieces, fills)[k] == o;
        SliceOfPrefix(Fill(init, f), last, o, o + |fills[k]|);
      } else {
        assert Offsets(pieces, fills)[k] == |Fill(init, f)|;
        SliceOfSuffix(Fill(init, f), last);
      }
  }

  // ---------------------------------------------------------------------------
  // Lexical modes
  // ---------------------------------------------------------------------------

  /** The lexical state in force when a character is read. `BlockOpen` and
      `BlockClose` hold for the star of a comment opener and the slash of a
      comment closer. */
  datatype Mode = Normal | InQuote(quote: char) | BlockOpen | InBlock | BlockClose | InLine

  /** `Scanner`: the comment handling as the splitter does it; `Sql`: the
      comment rules of SQL, where the two characters of a comment opener
      (slash, star) and of a comment closer (star, slash) are each taken
      together. */
  datatype Rules = Scanner | Sql

  function Peek(text: string, i: nat): Option<char>
  {
    if i < |text| then Some(text[i]) else None
  }

  /** The mode after reading `c` in mode `m`, with `next` the character after it. */
  function Step(rules: Rules, m: Mode, c: char, next: Option<char>): Mode
  {
    match m
    case Normal =>
      if c == '\'' || c == '"' then InQuote(c)
      else if c == '/' && next == Some('*') then (if rules == Sql then BlockOpen else InBlock)
      else if c == '-' && next == Some('-') then InLine
      else Normal
    case InQuote(q) => if c == q then Normal else m
    case BlockOpen => InBlock
    case InBlock =>
      if c == '*' && next == Some('/') then (if rules == Sql then BlockClose else Normal)
      else InBlock
    case BlockClose => Normal
    case InLine => if c == '\n' then Normal else InLine
  }

  /** The mode in force when `text[i]` is read. */
  function ModeAt(rules: Rules, text: string, i: nat): Mode
    requires i <= |text|
  {
    if i == 0 then Normal else Step(rules, ModeAt(rules, text, i - 1), text[i - 1], Peek(text, i))
  }

  /** `char::is_alphanumeric` restricted to ASCII, and `_`. */
  predicate IsIdentChar(c: char)
  {
    'a' <= c <= 'z' || 'A' <= c <= 'Z' || '0' <= c <= '9' || c == '_'
  }

  predicate IsIdent(n: string)
  {
    n != [] && forall j :: 0 <= j < |n| ==> IsIdentChar(n[j])
  }

  /** A `?`, or a `:` followed by a name character. */
  predicate PlaceholderStart(text: string, p: nat)
    requires p < |text|
  {
    text[p] == '?' || (text[p] == ':' && p + 1 < |text| && IsIdentChar(text[p + 1]))
  }

  /** The placeholder `name` begins at offset `o` of `text`, outside quotes and
      comments: a `?`, or a `:` followed by the whole run of name characters. */
  predicate PlaceholderAt(rules: Rules, text: string, o: int, name: Option<string>)
  {
    && 0 <= o < |text|
    && ModeAt(rules, text, o) == Normal
    && match name
       case None => text[o] == '?'
       case Some(n) =>
         && text[o] == ':'
         && IsIdent(n)
         && o + 1 + |n| <= |text|
         && text[o + 1..o + 1 + |n|] == n
         && (o + 1 + |n| == |text| || !IsIdentChar(text[o + 1 + |n|]))
  }

  predicate LiteralsNonEmpty(pieces: seq<TextPiece>)
  {
    forall k :: 0 <= k < |pieces| && pieces[k].Literal? ==> pieces[k].text != []
  }

  /** `q` is a splitting of `text` under `rules`: its pieces give the text back,
      no literal is empty, every placeholder lies at a placeholder start outside
      quotes and comments, and every such start is a placeholder. */
  predicate Parses(rules: Rules, text: string, q: ParsedQuery)
  {
    && Consistent(q)
    && Render(q) == text
    && LiteralsNonEmpty(q.pieces)
    && (forall k :: 0 <= k < |q.params| ==> PlaceholderAt(rules, text, PlaceholderOffsets(q)[k], q.params[k]))
    && (forall p {:trigger PlaceholderStart(text, p)} :: 0 <= p < |text| && ModeAt(rules, text, p) == Normal && PlaceholderStart(text, p)
          ==> p in PlaceholderOffsets(q))
  }

  // ---------------------------------------------------------------------------
  // The splitter
  // ---------------------------------------------------------------------------

  /** The state of the splitter after reading `text[..i]`. */
  predicate Scanned(rules: Rules, text: string, i: nat, pieces: seq<TextPiece>, params: seq<Option<string>>, cur: string)
  {
    && i <= |text|
    && PlaceholderCount(pieces) == |params|
    && Fill(pieces, Tokens(params)) + cur == text[..i]
    && LiteralsNonEmpty(pieces)
    && (forall k :: 0 <= k < |params| ==> PlaceholderAt(rules, text, Offsets(pieces, Tokens(params))[k], params[k]))
    && (forall p {:trigger PlaceholderStart(text, p)} :: 0 <= p < i && ModeAt(rules, text, p) == Normal && PlaceholderStart(text, p)
          ==> p in Offsets(pieces, Tokens(params)))
  }

  lemma PushChar(rules: Rules, text: string, i: nat, pieces: seq<TextPiece>, params: seq<Option<string>>, cur: string)
    requires Scanned(rules, text, i, pieces, params, cur)
    requires i < |text| && !(ModeAt(rules, text, i) == Normal && PlaceholderStart(text, i))
    ensures Scanned(rules, text, i + 1, pieces, params, cur + [text[i]])
  {
    assert text[..i + 1] == text[..i] + [text[i]];
  }

  lemma Flush(rules: Rules, text: string, i: nat, pieces: seq<TextPiece>, params: seq<Option<string>>, cur: string)
    requires Scanned(rules, text, i, pieces, params, cur) && cur != []
    ensures Scanned(rules, text, i, pieces + [Literal(cur)], params, [])
  {
    AppendLiteral(pieces, Tokens(params), cur);
  }

  lemma TokenAt(rules: Rules, text: string, start: nat, name: Option<string>)
    requires PlaceholderAt(rules, text, start, name)
    ensures start + |Token(name)| <= |text|
    ensures text[start..start + |Token(name)|] == Token(name)
    ensures forall p :: start < p < start + |Token(name)| ==> !PlaceholderStart(text, p)
  {
    match name
    case None =>
      assert text[start..start + 1] == [text[start]];
    case Some(n) =>
      NameTokenAt(text, start, n);
  }

  lemma NameTokenAt(text: string, start: nat, n: string)
    requires start < |text| && text[start] == ':' && IsIdent(n)
    requires start + 1 + |n| <= |text| && text[start + 1..start + 1 + |n|] == n
    ensures text[start..start + 1 + |n|] == ":" + n
    ensures forall p :: start < p < start + 1 + |n| ==> !PlaceholderStart(text, p)
  {
    var i := start + 1 + |n|;
    assert text[start..i] == [text[start]] + text[start + 1..i];
    forall p | start < p < i
      ensures !PlaceholderStart(text, p)
    {
      assert text[p] == text[start + 1..i][p - start - 1];
    }
  }

  lemma AppendToken(text: string, start: nat, pieces: seq<TextPiece>, params: seq<Option<string>>, name: Option<string>)
    requires PlaceholderCount(pieces) == |params| && start <= |text|
    requires Fill(pieces, Tokens(params)) == text[..start]
    requires start + |Token(name)| <= |text| && text[start..start + |Token(name)|] == Token(name)
    ensures PlaceholderCount(pieces + [Placeholder]) == |params + [name]|
    ensures Fill(pieces + [Placeholder], Tokens(params + [name])) == text[..start + |Token(name)|]
    ensures Offsets(pieces + [Placeholder], Tokens(params + [name])) == Offsets(pieces, Tokens(params)) + [start]
  {
    var i := start + |Token(name)|;
    assert text[..i] == text[..start] + text[start..i];
    TokensAppend(params, name);
    AppendPlaceholder(pieces, Tokens(params), Token(name));
  }

  lemma PushPlaceholder(rules: Rules, text: string, start: nat, pieces: seq<TextPiece>, params: seq<Option<string>>, name: Option<string>)
    requires Scanned(rules, text, start, pieces, params, [])
    requires PlaceholderAt(rules, text, start, name)
    ensures Scanned(rules, text, start + |Token(name)|, pieces + [Placeholder], params + [name], [])
  {
    TokenAt(rules, text, start, name);
    AppendToken(text, start, pieces, params, name);
    var i := start + |Token(name)|;
    var pieces', params' := pieces + [Placeholder], params + [name];
    var offs := Offsets(pieces, Tokens(params));
    var offs' := Offsets(pieces', Tokens(params'));
    assert offs' == offs + [start];
    assert Fill(pieces', Tokens(params')) + [] == text[..i];
    assert LiteralsNonEmpty(pieces') by {
      forall k | 0 <= k < |pieces'| && pieces'[k].Literal?
        ensures pieces'[k].text != []
      {
        assert pieces'[k] == pieces[k];
      }
    }
    forall k | 0 <= k < |params'|
      ensures PlaceholderAt(rules, text, offs'[k], params'[k])
    {
      if k < |params| {
        assert offs'[k] == offs[k] && params'[k] == params[k];
      }
    }
    forall p {:trigger PlaceholderStart(text, p)} | 0 <= p < i && ModeAt(rules, text, p) == Normal && PlaceholderStart(text, p)
      ensures p in offs'
    {
      if p < start {
        assert p in offs;
      } else {
        assert p == start;
      }
    }
  }

  /** No character of `text[start..end]` begins a placeholder outside quotes and comments. */
  predicate NoPlaceholderIn(rules: Rules, text: string, start: nat, end: nat)
    requires end <= |text|
  {
    forall p {:trigger PlaceholderStart(text, p)} :: start <= p < end ==> !(ModeAt(rules, text, p) == Normal && PlaceholderStart(text, p))
  }

  /** Copying such a run into the pending literal keeps the splitter's state. */
  lemma {:induction false} PushRun(rules: Rules, text: string, start: nat, end: nat, pieces: seq<TextPiece>, params: seq<Option<string>>, cur: string)
    requires Scanned(rules, text, start, pieces, params, cur)
    requires start <= end <= |text| && NoPlaceholderIn(rules, text, start, end)
    ensures Scanned(rules, text, end, pieces, params, cur + text[start..end])
    decreases end - start
  {
    if start < end {
      PushChar(rules, text, start, pieces, params, cur);
      PushRun(rules, text, start + 1, end, pieces, params, cur + [text[start]]);
      assert cur + [text[start]] + text[start + 1..end] == cur + text[start..end];
    } else {
      assert cur + text[start..end] == cur;
    }
  }

  /** `parse_query`: splits `text` into literals and placeholders. Quoted text
      runs to the next quote of the same kind, a line comment to the end of
      the line and a block comment to its end; `rules` says whether the
      comment ends at the first star followed by a slash as the splitter reads
      it (`Scanner`) or as SQL reads it (`Sql`). A colon at the end of the
      text, or not followed by a name character, stays literal text. */
  method ParseQuery(rules: Rules, text: string) returns (q: ParsedQuery)
    ensures Parses(rules, text, q)
  {
    var pieces: seq<TextPiece> := [];
    var params: seq<Option<string>> := [];
    var cur: string := [];
    var i := 0;
    assert text[..0] == [];
    while i < |text|
      invariant Scanned(rules, text, i, pieces, params, cur)
      invariant i < |text| ==> ModeAt(rules, text, i) == Normal
      decreases |text| - i
    {
      i, pieces, params, cur := ScanToken(rules, text, i, pieces, params, cur);
    }
    if cur != [] {
      Flush(rules, text, i, pieces, params, cur);
      pieces := pieces + [Literal(cur)];
    }
    assert text[..|text|] == text;
    q := ParsedQuery(pieces, params);
  }

  /** One turn of the splitter's loop: reads the character at `start` and
      whatever it drags along. */
  method ScanToken(rules: Rules, text: string, start: nat, pieces0: seq<TextPiece>, params0: seq<Option<string>>, cur0: string)
    returns (i: nat, pieces: seq<TextPiece>, params: seq<Option<string>>, cur: string)
    requires Scanned(rules, text, start, pieces0, params0, cur0)
    requires start < |text| && ModeAt(rules, text, start) == Normal
    ensures start < i
    ensures Scanned(rules, text, i, pieces, params, cur)
    ensures i < |text| ==> ModeAt(rules, text, i) == Normal
  {
    var c := text[start];
    if c == '?' {
      pieces, params := EmitPlaceholder(rules, text, start, pieces0, params0, cur0, None);
      cur, i := [], start + |Token(None)|;
      assert Scanned(rules, text, i, pieces, params, cur);
    } else if c == ':' && start + 1 < |text| {
      i, pieces, params, cur := ScanColon(rules, text, start, pieces0, params0, cur0);
    } else {
      var run;
      i, run := ScanRun(rules, text, start);
      PushRun(rules, text, start, i, pieces0, params0, cur0);
      pieces, params, cur := pieces0, params0, cur0 + run;
      assert Scanned(rules, text, i, pieces, params, cur);
    }
  }

  /** Any other character: a quote, a slash or a dash together with what they
      open, or a single character; all of it is literal text. */
  method ScanRun(rules: Rules, text: string, start: nat) returns (i: nat, run: string)
    requires start < |text| && ModeAt(rules, text, start) == Normal
    requires text[start] != '?' && (text[start] != ':' || start + 1 == |text|)
    ensures start < i <= |text| && run == text[start..i]
    ensures NoPlaceholderIn(rules, text, start, i)
    ensures i < |text| ==> ModeAt(rules, text, i) == Normal
  {
    var c := text[start];
    if c == '\'' || c == '"' {
      i, run := ScanQuoted(rules, text, start);
    } else if c == '/' {
      i, run := ScanSlash(rules, text, start);
    } else if c == '-' {
      i, run := ScanDash(rules, text, start);
    } else {
      i, run := start + 1, [c];
      assert run == text[start..i];
      assert !PlaceholderStart(text, start);
    }
  }

  /** A colon that is not the last character: the run of name characters
      after it is read, giving a named placeholder, or, when the run is empty,
      the pending literal is closed and the colon starts a new one. */
  method ScanColon(rules: Rules, text: string, start: nat, pieces0: seq<TextPiece>, params0: seq<Option<string>>, cur0: string)
    returns (i: nat, pieces: seq<TextPiece>, params: seq<Option<string>>, cur: string)
    requires Scanned(rules, text, start, pieces0, params0, cur0)
    requires start + 1 < |text| && ModeAt(rules, text, start) == Normal && text[start] == ':'
    ensures start < i && Scanned(rules, text, i, pieces, params, cur)
    ensures i < |text| ==> ModeAt(rules, text, i) == Normal
  {
    var name;
    i, name := ScanName(rules, text, start);
    if name == [] {
      pieces, params := pieces0, params0;
      if cur0 != [] {
        Flush(rules, text, start, pieces, params, cur0);
        pieces := pieces + [Literal(cur0)];
      }
      PushChar(rules, text, start, pieces, params, []);
      cur := [] + [text[start]];
      assert i == start + 1;
    } else {
      pieces, params := EmitPlaceholder(rules, text, start, pieces0, params0, cur0, Some(name));
      cur := [];
    }
  }

  /** A placeholder: the pending literal, when there is one, becomes a piece,
      and the placeholder and its name are appended. */
  method EmitPlaceholder(rules: Rules, text: string, start: nat, pieces0: seq<TextPiece>, params0: seq<Option<string>>,
                         cur: string, name: Option<string>)
    returns (pieces: seq<TextPiece>, params: seq<Option<string>>)
    requires Scanned(rules, text, start, pieces0, params0, cur)
    requires PlaceholderAt(rules, text, start, name)
    ensures Scanned(rules, text, start + |Token(name)|, pieces, params, [])
    ensures params == params0 + [name]
  {
    pieces := pieces0;
    if cur != [] {
      Flush(rules, text, start, pieces, params0, cur);
      pieces := pieces + [Literal(cur)];
    }
    PushPlaceholder(rules, text, start, pieces, params0, name);
    pieces, params := pieces + [Placeholder], params0 + [name];
  }

  /** A quote: copied with everything up to and including the next quote of the same kind. */
  method ScanQuoted(rules: Rules, text: string, start: nat) returns (i: nat, cur: string)
    requires start < |text| && ModeAt(rules, text, start) == Normal && (text[start] == '\'' || text[start] == '"')
    ensures start < i <= |text| && cur == text[start..i]
    ensures NoPlaceholderIn(rules, text, start, i)
    ensures i < |text| ==> ModeAt(rules, text, i) == Normal
  {
    var c := text[start];
    cur, i := [c], start + 1;
    var closed := false;
    while i < |text| && !closed
      invariant start < i <= |text| && cur == text[start..i]
      invariant forall p :: start < p < i ==> ModeAt(rules, text, p) != Normal
      invariant !closed ==> ModeAt(rules, text, i) == InQuote(c)
      invariant closed ==> ModeAt(rules, text, i) == Normal
      decreases |text| - i
    {
      var c1 := text[i];
      cur, i := cur + [c1], i + 1;
      closed := c1 == c;
    }
  }

  /** A slash: copied; when a star follows, the block comment is copied up to
      its end as `rules` reads it. */
  method ScanSlash(rules: Rules, text: string, start: nat) returns (i: nat, cur: string)
    requires start < |text| && ModeAt(rules, text, start) == Normal && text[start] == '/'
    ensures start < i <= |text| && cur == text[start..i]
    ensures NoPlaceholderIn(rules, text, start, i)
    ensures i < |text| ==> ModeAt(rules, text, i) == Normal
  {
    cur, i := ['/'], start + 1;
    assert !PlaceholderStart(text, start);
    if i < |text| && text[i] == '*' {
      var body := start + 1;
      if rules == Sql {
        assert ModeAt(rules, text, body) == BlockOpen;
        cur, body := cur + ['*'], body + 1;
      }
      assert ModeAt(rules, text, body) == InBlock;
      assert cur == text[start..body];
      assert forall p :: start < p < body ==> ModeAt(rules, text, p) != Normal;
      var rest;
      i, rest := ScanBlockComment(rules, text, body);
      cur := cur + rest;
      assert text[start..i] == text[start..body] + text[body..i];
    }
  }

  /** The inside of a block comment: copied up to and including the star
      followed by a slash, and with that slash too under SQL rules. */
  method ScanBlockComment(rules: Rules, text: string, start: nat) returns (i: nat, cur: string)
    requires start <= |text| && (start == |text| || ModeAt(rules, text, start) == InBlock)
    ensures start <= i <= |text| && cur == text[start..i]
    ensures forall p :: start <= p < i ==> ModeAt(rules, text, p) != Normal
    ensures i < |text| ==> ModeAt(rules, text, i) == Normal
  {
    cur, i := [], start;
    var closed := false;
    while i < |text| && !closed
      invariant start <= i <= |text| && cur == text[start..i]
      invariant forall p :: start <= p < i ==> ModeAt(rules, text, p) != Normal
      invariant !closed ==> i == |text| || ModeAt(rules, text, i) == InBlock
      invariant closed ==> ModeAt(rules, text, i) == Normal
      decreases |text| - i
    {
      var c1 := text[i];
      cur, i := cur + [c1], i + 1;
      if c1 == '*' && i < |text| && text[i] == '/' {
        if rules == Sql {
          cur, i := cur + ['/'], i + 1;
        }
        closed := true;
      }
    }
  }

  /** A dash: copied; when a second dash follows, the rest of the line is
      copied up to and including the line break. */
  method ScanDash(rules: Rules, text: string, start: nat) returns (i: nat, cur: string)
    requires start < |text| && ModeAt(rules, text, start) == Normal && text[start] == '-'
    ensures start < i <= |text| && cur == text[start..i]
    ensures NoPlaceholderIn(rules, text, start, i)
    ensures i < |text| ==> ModeAt(rules, text, i) == Normal
  {
    cur, i := ['-'], start + 1;
    if i < |text| && text[i] == '-' {
      var closed := false;
      while i < |text| && !closed
        invariant start < i <= |text| && cur == text[start..i]
        invariant forall p :: start < p < i ==> ModeAt(rules, text, p) != Normal
        invariant !closed ==> ModeAt(rules, text, i) == InLine
        invariant closed ==> ModeAt(rules, text, i) == Normal
        decreases |text| - i
      {
        var c1 := text[i];
        cur, i := cur + [c1], i + 1;
        closed := c1 == '\n';
      }
    }
  }

  /** The name after a colon: the run of name characters that follows it. */
  method ScanName(rules: Rules, text: string, start: nat) returns (i: nat, name: string)
    requires start + 1 < |text| && ModeAt(rules, text, start) == Normal && text[start] == ':'
    ensures start < i <= |text| && i == start + 1 + |name|
    ensures name == text[start + 1..i]
    ensures name == [] ==> !PlaceholderStart(text, start)
    ensures name != [] ==> PlaceholderAt(rules, text, start, Some(name))
    ensures i < |text| ==> ModeAt(rules, text, i) == Normal
  {
    name := [];
    i := start + 1;
    while i < |text| && IsIdentChar(text[i])
      invariant start + 1 <= i <= |text|
      invariant name == text[start + 1..i]
      invariant forall j :: 0 <= j < |name| ==> IsIdentChar(name[j])
      invariant i < |text| ==> ModeAt(rules, text, i) == Normal
      decreases |text| - i
    {
      name := name + [text[i]];
      i := i + 1;
    }
  }

  /** `ParsedQuery::param_index`: the positions of the placeholders named `name`, in order. */
  method ParamIndex(q: ParsedQuery, name: string) returns (r: seq<nat>)
    ensures forall j, k :: 0 <= j < k < |r| ==> r[j] < r[k]
    ensures forall j :: j in r <==> 0 <= j < |q.params| && q.params[j] == Some(name)
  {
    r := [];
    for i := 0 to |q.params|
      invariant forall j, k :: 0 <= j < k < |r| ==> r[j] < r[k]
      invariant forall j :: 0 <= j < |r| ==> r[j] < i
      invariant forall j :: j in r <==> 0 <= j < i && q.params[j] == Some(name)
    {
      if q.params[i] == Some(name) {
        r := r + [i];
      }
    }
  }

  // ---------------------------------------------------------------------------
  // Generation
  // ---------------------------------------------------------------------------

  /** What the k-th placeholder is replaced by: the encoding of the k-th
      argument, or `null` once the arguments run out. */
  function Substitution(args: seq<SqlValue>, k: nat): string
  {
    if k < |args| then Encode(args[k]) else "null"
  }

  function Substitutions(args: seq<SqlValue>, n: nat): (s: seq<string>)
    ensures |s| == n
  {
    if n == 0 then [] else Substitutions(args, n - 1) + [Substitution(args, n - 1)]
  }

  /** `generate_query`: each literal verbatim, each placeholder replaced by the
      encoding of the next argument or by `null`. */
  method GenerateQuery(q: ParsedQuery, args: seq<SqlValue>) returns (sql: string)
    ensures sql == Fill(q.pieces, Substitutions(args, PlaceholderCount(q.pieces)))
  {
    sql := [];
    var used := 0;
    for i := 0 to |q.pieces|
      invariant used == PlaceholderCount(q.pieces[..i])
      invariant sql == Fill(q.pieces[..i], Substitutions(args, used))
    {
      match q.pieces[i] {
        case Literal(s) =>
          FillStep(q.pieces, i, Substitutions(args, used), []);
          sql := sql + s;
        case Placeholder =>
          var v;
          if used < |args| {
            v := WriteValue(args[used]);
          } else {
            v := "null";
          }
          FillStep(q.pieces, i, Substitutions(args, used), v);
          assert Substitutions(args, used + 1) == Substitutions(args, used) + [v];
          sql := sql + v;
          used := used + 1;
      }
    }
    assert q.pieces[..|q.pieces|] == q.pieces;
  }

  lemma FillStep(pieces: seq<TextPiece>, i: nat, fills: seq<string>, v: string)
    requires i < |pieces| && PlaceholderCount(pieces[..i]) == |fills|
    ensures pieces[i].Literal? ==>
      PlaceholderCount(pieces[..i + 1]) == |fills|
      && Fill(pieces[..i + 1], fills) == Fill(pieces[..i], fills) + pieces[i].text
    ensures pieces[i].Placeholder? ==>
      PlaceholderCount(pieces[..i + 1]) == |fills| + 1
      && Fill(pieces[..i + 1], fills + [v]) == Fill(pieces[..i], fills) + v
  {
    assert pieces[..i + 1] == pieces[..i] + [pieces[i]];
    if pieces[i].Literal? {
      AppendLiteral(pieces[..i], fills, pieces[i].text);
    } else {
      AppendPlaceholder(pieces[..i], fills, v);
    }
  }

  // ---------------------------------------------------------------------------
  // Properties
  // ---------------------------------------------------------------------------

  /** The runs of literal text around the placeholders: one more than there are placeholders. */
  function Runs(pieces: seq<TextPiece>): (r: seq<string>)
    ensures |r| == PlaceholderCount(pieces) + 1
  {
    if pieces == [] then [[]]
    else
      var init := Runs(pieces[..|pieces| - 1]);
      match pieces[|pieces| - 1]
      case Literal(s) => init[..|init| - 1] + [init[|init| - 1] + s]
      case Placeholder => init + [[]]
  }

  /** `runs[0] + fills[0] + runs[1] + ... + fills[n-1] + runs[n]`. */
  function Weave(runs: seq<string>, fills: seq<string>): string
    requires |runs| == |fills| + 1
  {
    if fills == [] then runs[0]
    else Weave(runs[..|runs| - 1], fills[..|fills| - 1]) + fills[|fills| - 1] + runs[|runs| - 1]
  }

  lemma WeaveExtendLast(runs: seq<string>, fills: seq<string>, s: string)
    requires |runs| == |fills| + 1
    ensures Weave(runs[..|runs| - 1] + [runs[|runs| - 1] + s], fills) == Weave(runs, fills) + s
  {
    var runs' := runs[..|runs| - 1] + [runs[|runs| - 1] + s];
    if fills != [] {
      assert runs'[..|runs'| - 1] == runs[..|runs| - 1];
      assert runs'[|runs'| - 1] == runs[|runs| - 1] + s;
    }
  }

  lemma WeaveNewRun(runs: seq<string>, fills: seq<string>, t: string)
    requires |runs| == |fills| + 1
    ensures Weave(runs + [[]], fills + [t]) == Weave(runs, fills) + t
  {
    var runs', fills' := runs + [[]], fills + [t];
    assert runs'[..|runs'| - 1] == runs;
    assert fills'[..|fills'| - 1] == fills;
  }

  lemma {:induction false} FillIsWeave(pieces: seq<TextPiece>, fills: seq<string>)
    requires PlaceholderCount(pieces) == |fills|
    ensures Fill(pieces, fills) == Weave(Runs(pieces), fills)
  {
    if pieces != [] {
      var init := pieces[..|pieces| - 1];
      match pieces[|pieces| - 1]
      case Literal(s) =>
        FillIsWeave(init, fills);
        WeaveExtendLast(Runs(init), fills, s);
      case Placeholder =>
        var f := fills[..|fills| - 1];
        FillIsWeave(init, f);
        WeaveNewRun(Runs(init), f, fills[|fills| - 1]);
        assert f + [fills[|fills| - 1]] == fills;
    }
  }

  lemma {:induction false} SubstitutionsAt(args: seq<SqlValue>, n: nat, k: nat)
    requires k < n
    ensures Substitutions(args, n)[k] == Substitution(args, k)
  {
    if k < n - 1 {
      SubstitutionsAt(args, n - 1, k);
    }
  }

  /** Generation keeps the query text and only swaps placeholders: the text is
      the literal runs woven with the placeholder tokens, and the generated SQL
      is the same runs woven with the arguments' encodings (`null` past the end
      of the arguments). */
  lemma GeneratedQueryReplacesTokens(rules: Rules, text: string, q: ParsedQuery, args: seq<SqlValue>)
    requires Parses(rules, text, q)
    ensures text == Weave(Runs(q.pieces), Tokens(q.params))
    ensures Fill(q.pieces, Substitutions(args, |q.params|)) == Weave(Runs(q.pieces), Substitutions(args, |q.params|))
  {
    FillIsWeave(q.pieces, Tokens(q.params));
    FillIsWeave(q.pieces, Substitutions(args, |q.params|));
  }

  /** In the generated SQL the k-th argument's encoding starts exactly where the
      k-th placeholder's offset in the generated text says. */
  lemma ArgumentAtItsOffset(q: ParsedQuery, args: seq<SqlValue>, k: nat)
    requires Consistent(q) && k < |q.params| && k < |args|
    ensures var subs := Substitutions(args, |q.params|);
      var o := Offsets(q.pieces, subs)[k];
      o + |Encode(args[k])| <= |Fill(q.pieces, subs)|
      && Fill(q.pieces, subs)[o..o + |Encode(args[k])|] == Encode(args[k])
  {
    FillAtOffsets(q.pieces, Substitutions(args, |q.params|), k);
    SubstitutionsAt(args, |q.params|, k);
  }

  /** Quoted text runs to the next quote of the same kind; a quote that is never
      closed makes the rest of the text quoted, so no placeholder follows it. */
  lemma {:induction false} UnclosedQuoteRunsToEnd(rules: Rules, text: string, p: nat, j: nat)
    requires p < j <= |text|
    requires ModeAt(rules, text, p) == Normal && (text[p] == '\'' || text[p] == '"')
    requires forall m :: p < m < |text| ==> text[m] != text[p]
    ensures ModeAt(rules, text, j) == InQuote(text[p])
  {
    if j > p + 1 {
      UnclosedQuoteRunsToEnd(rules, text, p, j - 1);
    }
  }

  // ---------------------------------------------------------------------------
  // Block comments: how the splitter ends them
  // ---------------------------------------------------------------------------

  const CommentSample: string := "/*/?*/"

  /** As the splitter reads `CommentSample`, the star that opens the comment also
      closes it, so the `?` inside the comment is taken for a placeholder. */
  lemma ScannerTakesCommentedPlaceholder(q: ParsedQuery)
    requires Parses(Scanner, CommentSample, q)
    ensures 3 in PlaceholderOffsets(q)
    ensures ModeAt(Sql, CommentSample, 3) == InBlock
  {
    assert ModeAt(Scanner, CommentSample, 3) == Normal;
    assert PlaceholderStart(CommentSample, 3);
  }

  /** Under SQL comment rules the same `?` stays part of the comment. */
  lemma SqlRulesSkipCommentedPlaceholder(q: ParsedQuery)
    requires Parses(Sql, CommentSample, q)
    ensures 3 !in PlaceholderOffsets(q)
  {
    assert ModeAt(Sql, CommentSample, 3) == InBlock;
    forall k | 0 <= k < |q.params|
      ensures PlaceholderOffsets(q)[k] != 3
    {
      assert PlaceholderAt(Sql, CommentSample, PlaceholderOffsets(q)[k], q.params[k]);
    }
  }

  /** A comment followed by a star: `2 * ?` with a comment between the two
      and the star. */
  const ReopenSample: string := "2/*x*/*?"

  /** As the splitter reads `ReopenSample`, the slash that closes the comment
      is read again and, with the star after it, opens a new comment that
      runs to the end, so the `?` is not a placeholder; SQL reads that `?`
      outside any comment. */
  lemma ScannerReopensClosedComment(q: ParsedQuery)
    requires Parses(Scanner, ReopenSample, q)
    ensures 7 !in PlaceholderOffsets(q)
    ensures ModeAt(Scanner, ReopenSample, 7) == InBlock
    ensures ModeAt(Sql, ReopenSample, 7) == Normal
  {
    assert ModeAt(Scanner, ReopenSample, 7) == InBlock;
    forall k | 0 <= k < |q.params|
      ensures PlaceholderOffsets(q)[k] != 7
    {
      assert PlaceholderAt(Scanner, ReopenSample, PlaceholderOffsets(q)[k], q.params[k]);
    }
  }

  /** Under SQL comment rules the closing slash ends the comment, and the
      `?` after it is a placeholder. */
  lemma SqlRulesTakePlaceholderAfterComment(q: ParsedQuery)
    requires Parses(Sql, ReopenSample, q)
    ensures 7 in PlaceholderOffsets(q)
  {
    assert ModeAt(Sql, ReopenSample, 7) == Normal;
    assert PlaceholderStart(ReopenSample, 7);
  }

  /** Under SQL rules a `?` inside a comment, a quoted string or a line
      comment is never a placeholder. */
  lemma SqlRulesSkipQuotedAndCommented(text: string, q: ParsedQuery, p: nat)
    requires Parses(Sql, text, q) && p < |text| && ModeAt(Sql, text, p) != Normal
    ensures p !in PlaceholderOffsets(q)
  {
    forall k | 0 <= k < |q.params|
      ensures PlaceholderOffsets(q)[k] != p
    {
      assert PlaceholderAt(Sql, text, PlaceholderOffsets(q)[k], q.params[k]);
    }
  }
}
