/**
 * `escapeMarkdown` (bot.js:31-51): eighteen chained `String.prototype.replace` calls, each
 * putting a backslash in front of every occurrence of one character that MarkdownV2
 * (the Telegram Bot API's "MarkdownV2 style" formatting) reserves.
 */
module Markdown {
  import opened Wrappers

  /** The replaced characters (the `.replace` calls take them in the order written here). */
  const Reserved: set<char> :=
    {'_', '*', '[', ']', '(', ')', '~', '`', '>', '#', '+', '-', '=', '|', '{', '}', '.', '!'}

  predicate IsReserved(c: char) {
    c in Reserved
  }

  /** `s.replace(/c/g, '\\' + c)` for a single literal character `c`. */
  function ReplaceAll(s: string, c: char): string
  {
    if s == [] then []
    else (if s[0] == c then ['\\', c] else [s[0]]) + ReplaceAll(s[1..], c)
  }

  /** bot.js:31-51 as written: the `.replace` calls, innermost first, in source order. */
  function EscapeMarkdown(text: string): string
  {
    var t := ReplaceAll(text, '_');
    var t := ReplaceAll(t, '*');
    var t := ReplaceAll(t, '[');
    var t := ReplaceAll(t, ']');
    var t := ReplaceAll(t, '(');
    var t := ReplaceAll(t, ')');
    var t := ReplaceAll(t, '~');
    var t := ReplaceAll(t, '`');
    var t := ReplaceAll(t, '>');
    var t := ReplaceAll(t, '#');
    var t := ReplaceAll(t, '+');
    var t := ReplaceAll(t, '-');
    var t := ReplaceAll(t, '=');
    var t := ReplaceAll(t, '|');
    var t := ReplaceAll(t, '{');
    var t := ReplaceAll(t, '}');
    var t := ReplaceAll(t, '.');
    var t := ReplaceAll(t, '!');
    t
  }

  // ---------------------------------------------------------------------------------
  // The per-character reading of a replace chain

  /** One character, with a backslash in front when it is one of `targets`. */
  function EscapeChar(c: char, targets: set<char>): (r: string)
  {
    if c in targets then ['\\', c] else [c]
  }

  /** Every character of `s` through EscapeChar, concatenated. */
  function EscapeEach(s: string, targets: set<char>): string
  {
    if s == [] then [] else EscapeChar(s[0], targets) + EscapeEach(s[1..], targets)
  }

  lemma {:induction false} ReplaceAllAppend(a: string, b: string, c: char)
    ensures ReplaceAll(a + b, c) == ReplaceAll(a, c) + ReplaceAll(b, c)
  {
    if a != [] {
      assert (a + b)[1..] == a[1..] + b;
      ReplaceAllAppend(a[1..], b, c);
    } else {
      assert a + b == b;
    }
  }

  lemma {:induction false} EscapeEachAppend(a: string, b: string, targets: set<char>)
    ensures EscapeEach(a + b, targets) == EscapeEach(a, targets) + EscapeEach(b, targets)
  {
    if a != [] {
      assert (a + b)[1..] == a[1..] + b;
      EscapeEachAppend(a[1..], b, targets);
    } else {
      assert a + b == b;
    }
  }

  lemma {:induction false} EscapeEachNothing(s: string)
    ensures EscapeEach(s, {}) == s
  {
    if s != [] {
      EscapeEachNothing(s[1..]);
      assert s == [s[0]] + s[1..];
    }
  }

  /**
   * One more `.replace` turns the per-character escape of `done` into that of `done + [c]`,
   * as long as `c` was not escaped already and the backslashes present are not themselves
   * replaced (`c` is not a backslash, or nothing has been escaped yet).
   */
  lemma {:induction false} ReplaceStep(s: string, done: set<char>, c: char)
    requires c !in done
    requires c == '\\' ==> done == {}
    ensures ReplaceAll(EscapeEach(s, done), c) == EscapeEach(s, done + {c})
  {
    if s != [] {
      var piece := EscapeChar(s[0], done);
      ReplaceAllAppend(piece, EscapeEach(s[1..], done), c);
      ReplaceStep(s[1..], done, c);
      if s[0] in done {
        assert piece == ['\\'] + [s[0]];
        ReplaceAllAppend(['\\'], [s[0]], c);
        assert ReplaceAll([s[0]], c) == [s[0]] + ReplaceAll([], c);
      } else {
        assert ReplaceAll([s[0]], c) == (if s[0] == c then ['\\', c] else [s[0]]) + ReplaceAll([], c);
      }
    }
  }

  /** Six consecutive `.replace` calls for distinct characters escape all six. */
  lemma ReplaceSix(s: string, done: set<char>, e: string, c1: char, c2: char, c3: char, c4: char, c5: char, c6: char)
    requires e == EscapeEach(s, done)
    requires c1 !in done && c2 !in done && c3 !in done && c4 !in done && c5 !in done && c6 !in done
    requires c1 != '\\' && c2 != '\\' && c3 != '\\' && c4 != '\\' && c5 != '\\' && c6 != '\\'
    requires c1 != c2 && c1 != c3 && c1 != c4 && c1 != c5 && c1 != c6
    requires c2 != c3 && c2 != c4 && c2 != c5 && c2 != c6
    requires c3 != c4 && c3 != c5 && c3 != c6
    requires c4 != c5 && c4 != c6 && c5 != c6
    ensures ReplaceAll(ReplaceAll(ReplaceAll(ReplaceAll(ReplaceAll(ReplaceAll(
              e, c1), c2), c3), c4), c5), c6)
            == EscapeEach(s, done + {c1, c2, c3, c4, c5, c6})
  {
    ReplaceStep(s, done, c1);
    ReplaceStep(s, done + {c1}, c2);
    ReplaceStep(s, done + {c1} + {c2}, c3);
    ReplaceStep(s, done + {c1} + {c2} + {c3}, c4);
    ReplaceStep(s, done + {c1} + {c2} + {c3} + {c4}, c5);
    ReplaceStep(s, done + {c1} + {c2} + {c3} + {c4} + {c5}, c6);
    assert done + {c1} + {c2} + {c3} + {c4} + {c5} + {c6} == done + {c1, c2, c3, c4, c5, c6};
  }

  /** The chain of `.replace` calls amounts to escaping each reserved character once. */
  lemma EscapeMarkdownIsPerCharacter(s: string)
    ensures EscapeMarkdown(s) == EscapeEach(s, Reserved)
  {
    var g1 := {'_', '*', '[', ']', '(', ')'};
    var g2 := {'~', '`', '>', '#', '+', '-'};
    var g3 := {'=', '|', '{', '}', '.', '!'};
    EscapeEachNothing(s);
    var e1 := ReplaceAll(ReplaceAll(ReplaceAll(ReplaceAll(ReplaceAll(ReplaceAll(
                s, '_'), '*'), '['), ']'), '('), ')');
    ReplaceSix(s, {}, s, '_', '*', '[', ']', '(', ')');
    var e2 := ReplaceAll(ReplaceAll(ReplaceAll(ReplaceAll(ReplaceAll(ReplaceAll(
                e1, '~'), '`'), '>'), '#'), '+'), '-');
    ReplaceSix(s, {} + g1, e1, '~', '`', '>', '#', '+', '-');
    ReplaceSix(s, {} + g1 + g2, e2, '=', '|', '{', '}', '.', '!');
    assert {} + g1 + g2 + g3 == Reserved;
  }

  // ---------------------------------------------------------------------------------
  // What escapeMarkdown promises

  /** How many characters of `s` are reserved. */
  function CountReserved(s: string): nat
  {
    if s == [] then 0 else (if IsReserved(s[0]) then 1 else 0) + CountReserved(s[1..])
  }

  lemma {:induction false} EscapeEachLength(s: string)
    ensures |EscapeEach(s, Reserved)| == |s| + CountReserved(s)
  {
    if s != [] {
      EscapeEachLength(s[1..]);
    }
  }

  /** The output is the input plus one backslash per reserved character. */
  lemma EscapeMarkdownLength(s: string)
    ensures |EscapeMarkdown(s)| == |s| + CountReserved(s)
  {
    EscapeMarkdownIsPerCharacter(s);
    EscapeEachLength(s);
  }

  /** escapeMarkdown works character by character: it distributes over concatenation. */
  lemma EscapeMarkdownAppend(a: string, b: string)
    ensures EscapeMarkdown(a + b) == EscapeMarkdown(a) + EscapeMarkdown(b)
  {
    EscapeMarkdownIsPerCharacter(a + b);
    EscapeMarkdownIsPerCharacter(a);
    EscapeMarkdownIsPerCharacter(b);
    EscapeEachAppend(a, b, Reserved);
  }

  /**
   * A single character comes out as itself, with a backslash in front exactly when it is
   * reserved; a backslash in particular comes out unchanged.
   */
  lemma EscapeMarkdownOneChar(c: char)
    ensures EscapeMarkdown([c]) == if IsReserved(c) then ['\\', c] else [c]
  {
    EscapeMarkdownIsPerCharacter([c]);
    assert EscapeEach([c], Reserved) == EscapeChar(c, Reserved) + EscapeEach([], Reserved);
  }

  /**
   * Reads escaped text back, left to right: a backslash is dropped only when the next
   * character is reserved, and that character is then taken as it is.
   */
  function Unescape(s: string): string
    decreases |s|
  {
    if |s| >= 2 && s[0] == '\\' && IsReserved(s[1]) then [s[1]] + Unescape(s[2..])
    else if s == [] then []
    else [s[0]] + Unescape(s[1..])
  }

  lemma FirstNotReserved(s: string)
    requires EscapeEach(s, Reserved) != []
    ensures !IsReserved(EscapeEach(s, Reserved)[0])
  {
  }

  lemma {:induction false} UnescapeEscapeEach(s: string)
    ensures Unescape(EscapeEach(s, Reserved)) == s
  {
    if s != [] {
      var rest := EscapeEach(s[1..], Reserved);
      var e := EscapeEach(s, Reserved);
      UnescapeEscapeEach(s[1..]);
      if IsReserved(s[0]) {
        assert e == ['\\', s[0]] + rest;
        assert e[2..] == rest;
      } else {
        assert e == [s[0]] + rest;
        assert e[1..] == rest;
        if |e| >= 2 {
          FirstNotReserved(s[1..]);
          assert e[1] == rest[0];
        }
      }
      assert s == [s[0]] + s[1..];
    }
  }

  /** Unescape recovers the input of escapeMarkdown exactly. */
  lemma EscapeMarkdownRoundTrip(s: string)
    ensures Unescape(EscapeMarkdown(s)) == s
  {
    EscapeMarkdownIsPerCharacter(s);
    UnescapeEscapeEach(s);
  }

  // ---------------------------------------------------------------------------------
  // How MarkdownV2 reads the result

  function Cons(c: char, o: Option<string>): Option<string>
  {
    match o
    case Some(t) => Some([c] + t)
    case None => None
  }

  /**
   * The plain text a MarkdownV2 message shows when it carries no formatting: a backslash
   * followed by a character with code 1 to 126 stands for that character; a reserved
   * character standing alone is markup, so the text is not plain (None); so is a backslash
   * that ends the text or precedes any other character.
   */
  function PlainText(s: string): Option<string>
    decreases |s|
  {
    if s == [] then Some([])
    else if s[0] == '\\' then
      if |s| >= 2 && 1 <= s[1] as int <= 126 then Cons(s[1], PlainText(s[2..])) else None
    else if IsReserved(s[0]) then None
    else Cons(s[0], PlainText(s[1..]))
  }

  lemma TargetsPrintable()
    ensures forall c :: c in Reserved ==> 33 <= c as int <= 126
    ensures forall c :: c in {'\\'} + Reserved ==> 1 <= c as int <= 126
  {
  }

  /** Escaping a superset of the reserved characters, backslash included when present, yields plain text. */
  lemma {:induction false} PlainTextOfEscaped(s: string, targets: set<char>)
    requires Reserved <= targets
    requires forall c :: c in targets ==> 1 <= c as int <= 126
    requires forall i :: 0 <= i < |s| && s[i] == '\\' ==> '\\' in targets
    ensures PlainText(EscapeEach(s, targets)) == Some(s)
  {
    if s != [] {
      var rest := EscapeEach(s[1..], targets);
      var e := EscapeEach(s, targets);
      PlainTextOfEscaped(s[1..], targets);
      if s[0] in targets {
        assert e == ['\\', s[0]] + rest;
        assert e[2..] == rest;
      } else {
        assert e == [s[0]] + rest;
        assert e[1..] == rest;
      }
      assert s == [s[0]] + s[1..];
    }
  }

  /** Without backslashes in the input, Telegram shows exactly the input. */
  lemma EscapeMarkdownPlainWithoutBackslash(s: string)
    requires '\\' !in s
    ensures PlainText(EscapeMarkdown(s)) == Some(s)
  {
    EscapeMarkdownIsPerCharacter(s);
    TargetsPrintable();
    PlainTextOfEscaped(s, Reserved);
  }

  /**
   * A backslash in the input is lost: followed by any other unreserved character with code
   * 1 to 126 it passes through unescaped, and Telegram shows only that character
   * (escapeMarkdown of the two characters "\\b" is shown as "b").
   */
  lemma BackslashLost(c: char)
    requires !IsReserved(c) && c != '\\' && 1 <= c as int <= 126
    ensures EscapeMarkdown(['\\', c]) == ['\\', c]
    ensures PlainText(EscapeMarkdown(['\\', c])) == Some([c])
  {
    EscapeMarkdownIsPerCharacter(['\\', c]);
    var e := EscapeEach(['\\', c], Reserved);
    assert ['\\', c][1..] == [c];
    assert EscapeEach([c], Reserved) == [c] + EscapeEach([], Reserved);
    assert e == ['\\', c];
    assert e[2..] == [];
  }

  /** escapeMarkdown with a backslash replace put first, as MarkdownV2 asks. */
  function EscapeMarkdownV2(text: string): string
  {
    EscapeMarkdown(ReplaceAll(text, '\\'))
  }

  /** The corrected chain escapes each reserved character and each backslash once. */
  lemma EscapeMarkdownV2IsPerCharacter(s: string)
    ensures EscapeMarkdownV2(s) == EscapeEach(s, {'\\'} + Reserved)
  {
    EscapeEachNothing(s);
    ReplaceStep(s, {}, '\\');
    assert {} + {'\\'} == {'\\'};
    EscapeMarkdownAfterBackslashes(s, ReplaceAll(s, '\\'));
  }

  /** The eighteen `.replace` calls on text whose backslashes are already escaped. */
  lemma EscapeMarkdownAfterBackslashes(s: string, e0: string)
    requires e0 == EscapeEach(s, {'\\'})
    ensures EscapeMarkdown(e0) == EscapeEach(s, {'\\'} + Reserved)
  {
    var g0 := {'\\'};
    var g1 := {'_', '*', '[', ']', '(', ')'};
    var g2 := {'~', '`', '>', '#', '+', '-'};
    var g3 := {'=', '|', '{', '}', '.', '!'};
    var e1 := ReplaceAll(ReplaceAll(ReplaceAll(ReplaceAll(ReplaceAll(ReplaceAll(
                e0, '_'), '*'), '['), ']'), '('), ')');
    var e2 := ReplaceAll(ReplaceAll(ReplaceAll(ReplaceAll(ReplaceAll(ReplaceAll(
                e1, '~'), '`'), '>'), '#'), '+'), '-');
    ReplaceSix(s, g0, e0, '_', '*', '[', ']', '(', ')');
    ReplaceSix(s, g0 + g1, e1, '~', '`', '>', '#', '+', '-');
    ReplaceSix(s, g0 + g1 + g2, e2, '=', '|', '{', '}', '.', '!');
    assert g0 + g1 + g2 + g3 == {'\\'} + Reserved;
  }

  /** Telegram shows the input of the corrected chain exactly, whatever it holds. */
  lemma EscapeMarkdownV2IsPlainText(s: string)
    ensures PlainText(EscapeMarkdownV2(s)) == Some(s)
  {
    EscapeMarkdownV2IsPerCharacter(s);
    TargetsPrintable();
    PlainTextOfEscaped(s, {'\\'} + Reserved);
  }

  /** On input without backslashes the corrected chain changes nothing. */
  lemma EscapeMarkdownV2Agrees(s: string)
    requires '\\' !in s
    ensures EscapeMarkdownV2(s) == EscapeMarkdown(s)
  {
    EscapeMarkdownV2IsPerCharacter(s);
    EscapeMarkdownIsPerCharacter(s);
    SameEscapeWithoutChar(s, Reserved, '\\');
  }

  lemma {:induction false} SameEscapeWithoutChar(s: string, targets: set<char>, c: char)
    requires c !in s
    ensures EscapeEach(s, {c} + targets) == EscapeEach(s, targets)
  {
    if s != [] {
      SameEscapeWithoutChar(s[1..], targets, c);
    }
  }
}
