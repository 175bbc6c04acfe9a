/**
 The small part of Python's `re` module the congestion-map patch exercises:
 `re.escape`, patterns made only of parenthesised groups of literal
 characters, replacement templates built from `\g<n>` group references and
 plain characters, and `re.sub` over such a pattern.

 Patterns and templates outside this subset (character classes,
 quantifiers, alternation, other escapes) map to `None`: the model says
 nothing about them.
 */
module Regex {
  import opened Wrappers
  import opened Text

  /** The characters `re.escape` prefixes with a backslash (Python 3.7 and
      later). */
  const EscapedChars: set<char> :=
    {'(', ')', '[', ']', '{', '}', '?', '*', '+', '-', '|', '^', '$', '\\',
     '.', '&', '~', '#', ' ', '\t', '\n', '\r', '\U{B}', '\U{C}'}

  /** Characters that carry a meaning of their own when they appear
      unescaped in a pattern, apart from the group parentheses. */
  const MetaChars: set<char> :=
    {'.', '^', '$', '*', '+', '?', '{', '}', '[', ']', '|', '\\'}

  predicate IsAsciiAlnum(c: char) {
    ('0' <= c <= '9') || ('a' <= c <= 'z') || ('A' <= c <= 'Z')
  }

  /** Python's `re.escape`, character by character. */
  function Escape(s: string): (e: string)
    ensures |e| >= |s|
    ensures (forall i :: 0 <= i < |s| ==> s[i] !in EscapedChars) ==> e == s
  {
    if |s| == 0 then [] else EscapeChar(s[0]) + Escape(s[1..])
  }

  function EscapeChar(c: char): string
  {
    if c in EscapedChars then ['\\', c] else [c]
  }

  /** A pattern token: a literal character or a group parenthesis. */
  datatype Token = Lit(c: char) | Open | Close

  /** The literal tokens spelling `s`. */
  function Lits(s: string): (ts: seq<Token>)
    ensures |ts| == |s|
  {
    if |s| == 0 then [] else [Lit(s[0])] + Lits(s[1..])
  }

  /** Tokenise a pattern: a backslash before a non-alphanumeric character
      makes it literal, parentheses open and close groups, any other
      character that is not a metacharacter is literal. */
  function Lex(p: string): Option<seq<Token>>
    decreases |p|
  {
    if |p| == 0 then Some([])
    else if p[0] == '\\' then
      if |p| == 1 || IsAsciiAlnum(p[1]) then None else Prepend(Lit(p[1]), Lex(p[2..]))
    else if p[0] == '(' then Prepend(Open, Lex(p[1..]))
    else if p[0] == ')' then Prepend(Close, Lex(p[1..]))
    else if p[0] in MetaChars then None
    else Prepend(Lit(p[0]), Lex(p[1..]))
  }

  function Prepend(t: Token, ts: Option<seq<Token>>): Option<seq<Token>>
  {
    if ts.None? then None else Some([t] + ts.value)
  }

  /** The literal characters of one group up to its closing parenthesis,
      and the tokens after it; `None` if the group never closes or nests. */
  function GroupBody(ts: seq<Token>): (r: Option<(string, seq<Token>)>)
    ensures r.Some? ==> |r.value.1| < |ts|
  {
    if |ts| == 0 then None
    else match ts[0]
      case Close => Some(([], ts[1..]))
      case Open => None
      case Lit(c) =>
        match GroupBody(ts[1..])
        case None => None
        case Some((body, rest)) => Some(([c] + body, rest))
  }

  /** Read a pattern that is a run of literal groups, giving the text of
      each group in order. */
  function Groups(ts: seq<Token>): Option<seq<string>>
    decreases |ts|
  {
    if |ts| == 0 then Some([])
    else if ts[0] != Open then None
    else match GroupBody(ts[1..])
      case None => None
      case Some((body, rest)) =>
        match Groups(rest)
        case None => None
        case Some(more) => Some([body] + more)
  }

  /** The concatenation of the groups: the one text a pattern of literal
      groups matches. */
  function Concat(groups: seq<string>): string
  {
    if |groups| == 0 then [] else groups[0] + Concat(groups[1..])
  }

  /** A piece of a replacement template. */
  datatype Piece = Ref(group: nat) | Chr(c: char)

  /** Read a replacement template: `\g<d>` is a reference to group `d`
      (one decimal digit), every other character but a backslash stands
      for itself. */
  function ParseTemplate(t: string): Option<seq<Piece>>
    decreases |t|
  {
    if |t| == 0 then Some([])
    else if t[0] == '\\' then
      if 5 <= |t| && t[1] == 'g' && t[2] == '<' && '0' <= t[3] <= '9' && t[4] == '>' then
        match ParseTemplate(t[5..])
        case None => None
        case Some(rest) => Some([Ref((t[3] as int - '0' as int) as nat)] + rest)
      else None
    else
      match ParseTemplate(t[1..])
      case None => None
      case Some(rest) => Some([Chr(t[0])] + rest)
  }

  /** Fill a template from the groups of a match; group 0 is the whole
      match, and a reference past the last group is an error. */
  function Expand(pieces: seq<Piece>, groups: seq<string>): Option<string>
  {
    if |pieces| == 0 then Some([])
    else
      var head := ExpandPiece(pieces[0], groups);
      var tail := Expand(pieces[1..], groups);
      if head.Some? && tail.Some? then Some(head.value + tail.value) else None
  }

  function ExpandPiece(piece: Piece, groups: seq<string>): Option<string>
  {
    match piece
    case Chr(c) => Some([c])
    case Ref(n) =>
      if n == 0 then Some(Concat(groups))
      else if n <= |groups| then Some(groups[n - 1])
      else None
  }

  /** `re.sub(pattern, template, text)` for a non-empty pattern of literal
      groups: every match is the same text, so every replacement is the
      same expansion, and matches are taken leftmost first without
      overlapping. */
  function Sub(pattern: string, template: string, text: string): (r: Option<string>)
    ensures (Lex(pattern).Some? && Groups(Lex(pattern).value).Some? && r.Some?
             && !Occurs(text, Concat(Groups(Lex(pattern).value).value)))
            ==> r.value == text
  {
    var ts := Lex(pattern);
    var groups := if ts.Some? then Groups(ts.value) else None;
    var pieces := ParseTemplate(template);
    if groups.None? || pieces.None? || |Concat(groups.value)| == 0 then None
    else
      var rep := Expand(pieces.value, groups.value);
      if rep.None? then None
      else
        var pat := Concat(groups.value);
        // A text without a match comes back unchanged, as with `re.sub`.
        assert !Occurs(text, pat) ==> ReplaceAll(text, pat, rep.value) == text by {
          if !Occurs(text, pat) {
            ReplaceAllWithoutOccurrence(text, pat, rep.value);
          }
        }
        Some(ReplaceAll(text, pat, rep.value))
  }

  // ---------------------------------------------------------------------------
  // Lemmas

  /** Escaping distributes over concatenation. */
  lemma {:induction false} EscapeAppend(a: string, b: string)
    ensures Escape(a + b) == Escape(a) + Escape(b)
    decreases |a|
  {
    if |a| > 0 {
      assert (a + b)[0] == a[0];
      assert (a + b)[1..] == a[1..] + b;
      EscapeAppend(a[1..], b);
    } else {
      assert a + b == b;
    }
  }

  /** Escaping adds backslashes and nothing else: any other character is
      in the escaped text exactly when it is in the original. */
  lemma {:induction false} EscapeKeepsOtherChars(s: string, c: char)
    requires c != '\\'
    ensures c in Escape(s) <==> c in s
    decreases |s|
  {
    if |s| > 0 {
      EscapeKeepsOtherChars(s[1..], c);
      assert s == [s[0]] + s[1..];
    }
  }

  /** Round trip: the escaped text, read back as a pattern, is the
      literal text it came from, whatever follows it. */
  lemma {:induction false} LexEscape(s: string, rest: string)
    requires Lex(rest).Some?
    ensures Lex(Escape(s) + rest) == Some(Lits(s) + Lex(rest).value)
    decreases |s|
  {
    var after := Lex(rest).value;
    if |s| > 0 {
      var tail := Escape(s[1..]) + rest;
      LexEscape(s[1..], rest);
      LexEscapeChar(s[0], tail);
      calc {
        Escape(s) + rest;
        (EscapeChar(s[0]) + Escape(s[1..])) + rest;
        EscapeChar(s[0]) + tail;
      }
      calc {
        [Lit(s[0])] + Lex(tail).value;
        [Lit(s[0])] + (Lits(s[1..]) + after);
        ([Lit(s[0])] + Lits(s[1..])) + after;
        Lits(s) + after;
      }
    } else {
      assert Escape(s) + rest == rest;
      assert Lits(s) + after == after;
    }
  }

  /** One escaped character reads back as that character. */
  lemma LexEscapeChar(c: char, rest: string)
    requires Lex(rest).Some?
    ensures Lex(EscapeChar(c) + rest) == Some([Lit(c)] + Lex(rest).value)
  {
    var p := EscapeChar(c) + rest;
    if c in EscapedChars {
      assert p[0] == '\\' && p[1] == c && p[2..] == rest;
    } else {
      assert p[0] == c && p[1..] == rest;
    }
  }

  /** Escaped text always reads back as literals. */
  lemma LexEscapeAlone(s: string)
    ensures Lex(Escape(s)) == Some(Lits(s))
  {
    LexEscape(s, []);
    assert Escape(s) + [] == Escape(s);
    assert Lits(s) + [] == Lits(s);
  }

  /** The body of a group of literals ends at the first closing parenthesis. */
  lemma {:induction false} GroupBodyOfLits(s: string, rest: seq<Token>)
    ensures GroupBody(Lits(s) + [Close] + rest) == Some((s, rest))
    decreases |s|
  {
    var ts := Lits(s) + [Close] + rest;
    if |s| == 0 {
      assert ts == [Close] + rest;
    } else {
      assert ts[0] == Lit(s[0]);
      assert ts[1..] == Lits(s[1..]) + [Close] + rest;
      GroupBodyOfLits(s[1..], rest);
      assert [s[0]] + s[1..] == s;
    }
  }

  /** A leading literal group contributes its text as the first group. */
  lemma GroupsCons(s: string, rest: seq<Token>)
    requires Groups(rest).Some?
    ensures Groups([Open] + Lits(s) + [Close] + rest) == Some([s] + Groups(rest).value)
  {
    var ts := [Open] + Lits(s) + [Close] + rest;
    assert ts[1..] == Lits(s) + [Close] + rest;
    GroupBodyOfLits(s, rest);
  }

  /** The tokens of the three-group pattern over a, b, c. */
  function ThreeGroupTokens(a: string, b: string, c: string): seq<Token>
  {
    [Open] + Lits(a) + [Close] + ([Open] + Lits(b) + [Close] + ([Open] + Lits(c) + [Close]))
  }

  /** The pattern `(` a `)(` b `)(` c `)` over escaped texts tokenises as
      three groups of literals. */
  lemma LexThreeGroups(a: string, b: string, c: string)
    ensures Lex("(" + Escape(a) + ")(" + Escape(b) + ")(" + Escape(c) + ")")
         == Some(ThreeGroupTokens(a, b, c))
  {
    var tc := [Open] + Lits(c) + [Close];
    var tb := [Open] + Lits(b) + [Close] + tc;
    var sc := "(" + Escape(c) + ")";
    var sb := "(" + Escape(b) + ")" + sc;
    var sa := "(" + Escape(a) + ")" + sb;
    assert Lex([]) == Some([]);
    LexGroup(c, []);
    assert sc + [] == sc && tc + [] == tc;
    LexGroup(b, sc);
    LexGroup(a, sb);
    PatternShape(Escape(a), Escape(b), Escape(c));
  }

  lemma PatternShape(x: string, y: string, z: string)
    ensures "(" + x + ")" + ("(" + y + ")" + ("(" + z + ")"))
         == "(" + x + ")(" + y + ")(" + z + ")"
    ensures "(" + (x + (")(" + y + ")(") + z) + ")"
         == "(" + x + ")(" + y + ")(" + z + ")"
  {
    assert ")(" == ")" + "(";
  }

  /** One escaped group in front of a readable pattern. */
  lemma LexGroup(s: string, rest: string)
    requires Lex(rest).Some?
    ensures Lex("(" + Escape(s) + ")" + rest) == Some([Open] + Lits(s) + [Close] + Lex(rest).value)
  {
    var tail := ")" + rest;
    assert tail[0] == ')' && tail[1..] == rest;
    assert Lex(tail) == Some([Close] + Lex(rest).value);
    LexEscape(s, tail);
    var inner := Escape(s) + tail;
    var whole := "(" + inner;
    assert whole[0] == '(' && whole[1..] == inner;
    assert Lex(whole) == Some([Open] + (Lits(s) + ([Close] + Lex(rest).value)));
    assert whole == "(" + Escape(s) + ")" + rest;
    assert [Open] + (Lits(s) + ([Close] + Lex(rest).value)) == [Open] + Lits(s) + [Close] + Lex(rest).value;
  }

  /** Three groups of literals read back as the three texts. */
  lemma GroupsOfThree(a: string, b: string, c: string)
    ensures Groups(ThreeGroupTokens(a, b, c)) == Some([a, b, c])
  {
    var tc := [Open] + Lits(c) + [Close];
    var tb := [Open] + Lits(b) + [Close] + tc;
    assert Groups([]) == Some([]);
    GroupsCons(c, []);
    assert tc == [Open] + Lits(c) + [Close] + [];
    GroupsCons(b, tc);
    GroupsCons(a, tb);
    assert [a] + ([b] + ([c] + [])) == [a, b, c];
  }

  /** For a pattern of literal groups and a template that expands over
      them, `re.sub` replaces every leftmost occurrence of the groups'
      concatenation by the expansion. */
  lemma SubOfLiteralGroups(pattern: string, template: string, text: string,
                           groups: seq<string>, rep: string)
    requires Lex(pattern).Some? && Groups(Lex(pattern).value) == Some(groups)
    requires |Concat(groups)| > 0
    requires ParseTemplate(template).Some?
    requires Expand(ParseTemplate(template).value, groups) == Some(rep)
    ensures Sub(pattern, template, text) == Some(ReplaceAll(text, Concat(groups), rep))
  {
  }

  /** The template pieces spelling `s` as plain characters. */
  function Chrs(s: string): (ps: seq<Piece>)
    ensures |ps| == |s|
  {
    if |s| == 0 then [] else [Chr(s[0])] + Chrs(s[1..])
  }

  /** Text without a backslash is read as plain characters. */
  lemma {:induction false} ParsePlainText(s: string, rest: string)
    requires '\\' !in s && ParseTemplate(rest).Some?
    ensures ParseTemplate(s + rest) == Some(Chrs(s) + ParseTemplate(rest).value)
    decreases |s|
  {
    var after := ParseTemplate(rest).value;
    if |s| == 0 {
      assert s + rest == rest;
      assert Chrs(s) + after == after;
    } else {
      ParsePlainText(s[1..], rest);
      assert (s + rest)[0] == s[0];
      assert (s + rest)[1..] == s[1..] + rest;
      assert [Chr(s[0])] + (Chrs(s[1..]) + after) == Chrs(s) + after;
    }
  }

  /** `\g<d>` is read as a reference to group `d`. */
  lemma ParseGroupRef(d: char, rest: string)
    requires '0' <= d <= '9' && ParseTemplate(rest).Some?
    ensures ParseTemplate("\\g<" + [d] + ">" + rest)
         == Some([Ref((d as int - '0' as int) as nat)] + ParseTemplate(rest).value)
  {
    var t := "\\g<" + [d] + ">" + rest;
    assert t[0] == '\\' && t[1] == 'g' && t[2] == '<' && t[3] == d && t[4] == '>';
    assert t[5..] == rest;
  }

  /** Plain characters expand to themselves. */
  lemma {:induction false} ExpandChrs(s: string, groups: seq<string>)
    ensures Expand(Chrs(s), groups) == Some(s)
    decreases |s|
  {
    if |s| > 0 {
      ExpandChrs(s[1..], groups);
      assert Chrs(s)[1..] == Chrs(s[1..]);
      assert [s[0]] + s[1..] == s;
    }
  }

  /** Expanding a template piece by piece concatenates the expansions. */
  lemma {:induction false} ExpandAppend(a: seq<Piece>, b: seq<Piece>, groups: seq<string>)
    requires Expand(a, groups).Some? && Expand(b, groups).Some?
    ensures Expand(a + b, groups) == Some(Expand(a, groups).value + Expand(b, groups).value)
    decreases |a|
  {
    if |a| == 0 {
      assert a + b == b;
      assert [] + Expand(b, groups).value == Expand(b, groups).value;
    } else {
      assert (a + b)[0] == a[0];
      assert (a + b)[1..] == a[1..] + b;
      ExpandAppend(a[1..], b, groups);
      var h := ExpandPiece(a[0], groups).value;
      assert h + (Expand(a[1..], groups).value + Expand(b, groups).value)
          == (h + Expand(a[1..], groups).value) + Expand(b, groups).value;
    }
  }
}
