/**
 * String operations of Python's str that the scripts rely on: strip, split at the
 * first space, startswith/endswith, replace(pat, "") and "\n".join.
 */
module Text {
  import opened Wrappers

  /** The characters for which Python's str.isspace() holds; str.strip() removes these. */
  predicate IsSpace(c: char)
  {
    || '\t' <= c <= '\r' || '\U{001C}' <= c <= ' ' || c == '\U{0085}' || c == '\U{00A0}' || c == '\U{1680}'
    || '\U{2000}' <= c <= '\U{200A}' || c == '\U{2028}' || c == '\U{2029}' || c == '\U{202F}' || c == '\U{205F}'
    || c == '\U{3000}'
  }

  /** The characters a strip removes: whitespace, as for s.strip(), or those given, as for s.strip(chars). */
  datatype Strippable = Spaces | Chars(cs: set<char>)

  predicate Strips(cs: Strippable, c: char)
  {
    match cs
    case Spaces => IsSpace(c)
    case Chars(chars) => c in chars
  }

  /** The argument of s.strip('"'). */
  const Quote: Strippable := Chars({'"'})

  /** s without its leading characters from cs. */
  function TrimStart(s: string, cs: Strippable): string
  {
    if s != [] && Strips(cs, s[0]) then TrimStart(s[1..], cs) else s
  }

  /** s without its trailing characters from cs. */
  function TrimEnd(s: string, cs: Strippable): string
  {
    if s != [] && Strips(cs, s[|s| - 1]) then TrimEnd(s[..|s| - 1], cs) else s
  }

  /** TrimStart removes the longest prefix made of characters of cs. */
  lemma {:induction false} TrimStartSpec(s: string, cs: Strippable)
    ensures var r := TrimStart(s, cs);
      && |r| <= |s| && r == s[|s| - |r|..]
      && (forall i :: 0 <= i < |s| - |r| ==> Strips(cs, s[i]))
      && (r == [] || !Strips(cs, r[0]))
  {
    if s != [] && Strips(cs, s[0]) {
      var t := s[1..];
      TrimStartSpec(t, cs);
      var r := TrimStart(t, cs);
      assert t[|t| - |r|..] == s[|s| - |r|..];
      forall i | 0 <= i < |s| - |r| ensures Strips(cs, s[i]) {
        if i > 0 {
          assert s[i] == t[i - 1];
        }
      }
    }
  }

  /** TrimEnd removes the longest suffix made of characters of cs. */
  lemma {:induction false} TrimEndSpec(s: string, cs: Strippable)
    ensures var r := TrimEnd(s, cs);
      && |r| <= |s| && r == s[..|r|]
      && (forall i :: |r| <= i < |s| ==> Strips(cs, s[i]))
      && (r == [] || !Strips(cs, r[|r| - 1]))
  {
    if s != [] && Strips(cs, s[|s| - 1]) {
      var t := s[..|s| - 1];
      TrimEndSpec(t, cs);
      var r := TrimEnd(t, cs);
      assert t[..|r|] == s[..|r|];
      forall i | |r| <= i < |s| ensures Strips(cs, s[i]) {
        if i < |t| {
          assert s[i] == t[i];
        }
      }
    }
  }

  /** Python's s.strip(chars) with the characters cs. */
  function StripChars(s: string, cs: Strippable): string
  {
    TrimEnd(TrimStart(s, cs), cs)
  }

  /** Python's s.strip(). */
  function Strip(s: string): string
  {
    StripChars(s, Spaces)
  }

  lemma StripUnchanged(s: string, cs: Strippable)
    requires s == [] || (!Strips(cs, s[0]) && !Strips(cs, s[|s| - 1]))
    ensures StripChars(s, cs) == s
  {
  }

  /** Stripping the quote character from a quoted text gives the text back. */
  lemma StripQuoted(s: string)
    requires s == [] || (s[0] != '"' && s[|s| - 1] != '"')
    ensures StripChars("\"" + s + "\"", Quote) == s
  {
    var q := "\"" + s + "\"";
    assert q[1..] == s + "\"";
    assert TrimStart(q, Quote) == TrimStart(s + "\"", Quote);
    if s == [] {
      assert TrimStart("\"", Quote) == TrimStart("", Quote);
    } else {
      assert TrimStart(s + "\"", Quote) == s + "\"";
      assert (s + "\"")[..|s|] == s;
      assert TrimEnd(s + "\"", Quote) == TrimEnd(s, Quote);
    }
  }

  predicate StartsWith(s: string, p: string)
  {
    |p| <= |s| && s[..|p|] == p
  }

  /** A prefix a followed, right after it, by b makes the prefix a + b. */
  lemma StartsWithConcat(s: string, a: string, b: string)
    requires StartsWith(s, a) && StartsWith(s[|a|..], b)
    ensures StartsWith(s, a + b)
  {
    assert s[..|a + b|] == s[..|a|] + s[|a|..][..|b|];
  }

  /** The converse: a prefix a + b is the prefix a followed, right after it, by b. */
  lemma StartsWithSplit(s: string, a: string, b: string)
    requires StartsWith(s, a + b)
    ensures StartsWith(s, a) && StartsWith(s[|a|..], b)
  {
    assert s[..|a|] == (a + b)[..|a|] == a;
    assert s[|a|..][..|b|] == (a + b)[|a|..] == b;
  }

  predicate EndsWith(s: string, t: string)
  {
    |t| <= |s| && s[|s| - |t|..] == t
  }

  /** Python's s.split(" ", 1): Some((before, after)) when s holds a space, None otherwise. */
  function SplitAtSpace(s: string): (r: Option<(string, string)>)
    ensures r.None? <==> ' ' !in s
    ensures r.Some? ==> s == r.value.0 + " " + r.value.1 && ' ' !in r.value.0
  {
    if s == [] then None
    else if s[0] == ' ' then Some(([], s[1..]))
    else match SplitAtSpace(s[1..])
      case None => None
      case Some(p) => Some(([s[0]] + p.0, p.1))
  }

  predicate OccursAt(s: string, pat: string, i: int)
  {
    0 <= i && i + |pat| <= |s| && s[i..i + |pat|] == pat
  }

  predicate Occurs(s: string, pat: string)
  {
    exists i :: 0 <= i <= |s| && OccursAt(s, pat, i)
  }

  /**
   * Python's s.replace(pat, ""): scanning left to right, every occurrence of pat that
   * does not overlap an earlier removed one is removed.
   */
  function RemoveAll(s: string, pat: string): (r: string)
    requires pat != []
    ensures |r| <= |s|
    decreases |s|
  {
    if |s| < |pat| then s
    else if s[..|pat|] == pat then RemoveAll(s[|pat|..], pat)
    else [s[0]] + RemoveAll(s[1..], pat)
  }

  lemma {:induction false} RemoveAllAbsent(s: string, pat: string)
    requires pat != [] && !Occurs(s, pat)
    ensures RemoveAll(s, pat) == s
    decreases |s|
  {
    if |s| >= |pat| {
      assert !OccursAt(s, pat, 0);
      forall i | OccursAt(s[1..], pat, i) ensures false {
        assert s[1..][i..i + |pat|] == s[i + 1..i + 1 + |pat|];
        assert OccursAt(s, pat, i + 1);
      }
      RemoveAllAbsent(s[1..], pat);
      assert [s[0]] + s[1..] == s;
    }
  }

  /** The suffix that marks a locale key holding a sentence list. */
  const SentencesTag: string := "_sentences"

  /**
   * Removing the tag from a text followed by the tag gives the text back, when the text
   * holds no tag itself: no occurrence can straddle the boundary, because '_' appears in
   * the tag only at its start.
   */
  lemma {:induction false} RemoveTagAfter(a: string)
    requires !Occurs(a, SentencesTag)
    ensures RemoveAll(a + SentencesTag, SentencesTag) == a
    decreases |a|
  {
    var t := SentencesTag;
    var s := a + t;
    if a == [] {
      assert s[..|t|] == t && s[|t|..] == [];
    } else {
      TagNotFirst(a);
      NoTagInTail(a);
      RemoveTagAfter(a[1..]);
      assert s[1..] == a[1..] + t;
      assert [a[0]] + a[1..] == a;
    }
  }

  /** A non-empty tag-free text followed by the tag does not start with the tag. */
  lemma TagNotFirst(a: string)
    requires a != [] && !Occurs(a, SentencesTag)
    ensures (a + SentencesTag)[..|SentencesTag|] != SentencesTag
  {
    var t := SentencesTag;
    var s := a + t;
    if |a| >= |t| {
      assert s[..|t|] == a[..|t|];
      assert !OccursAt(a, t, 0);
    } else {
      assert s[..|t|][|a|] == '_';
      assert t[|a|] != '_';
    }
  }

  /** The tail of a tag-free text is tag-free. */
  lemma NoTagInTail(a: string)
    requires a != [] && !Occurs(a, SentencesTag)
    ensures !Occurs(a[1..], SentencesTag)
  {
    var t := SentencesTag;
    forall i | 0 <= i <= |a[1..]| ensures !OccursAt(a[1..], t, i) {
      assert !OccursAt(a, t, i + 1);
      if i + |t| <= |a[1..]| {
        assert a[1..][i..i + |t|] == a[i + 1..i + 1 + |t|];
      }
    }
  }

  /** Stripping ignores one more line terminator at the end. */
  lemma StripNewline(s: string)
    ensures Strip(s + "\n") == Strip(s)
  {
    TrimStartNewline(s, Spaces);
    var u := TrimStart(s, Spaces);
    if u != [] {
      assert (u + "\n")[..|u|] == u;
    }
  }

  lemma {:induction false} TrimStartNewline(s: string, cs: Strippable)
    requires Strips(cs, '\n')
    ensures TrimStart(s + "\n", cs) == if TrimStart(s, cs) == [] then [] else TrimStart(s, cs) + "\n"
  {
    if s == [] {
      assert TrimStart("\n", cs) == TrimStart("\n"[1..], cs);
    } else if Strips(cs, s[0]) {
      assert (s + "\n")[1..] == s[1..] + "\n";
      TrimStartNewline(s[1..], cs);
    }
  }

  /** Python's "\n".join(lines). */
  function JoinLines(lines: seq<string>): (r: string)
  {
    if lines == [] then []
    else if |lines| == 1 then lines[0]
    else lines[0] + "\n" + JoinLines(lines[1..])
  }

  /** The length of the first line of s, without its terminator. */
  function LineEnd(s: string): (n: nat)
    ensures n <= |s| && (n < |s| ==> s[n] == '\n')
    ensures forall j :: 0 <= j < n ==> s[j] != '\n'
  {
    if s == [] || s[0] == '\n' then 0 else 1 + LineEnd(s[1..])
  }

  /**
   * The text a file opened in text mode reads as, with universal newlines: "\r\n" and a
   * lone "\r" each read as "\n". A text without "\r" reads as itself.
   */
  function UniversalNewlines(s: string): (r: string)
    ensures '\r' !in r
    ensures '\r' !in s ==> r == s
    decreases |s|
  {
    if s == [] then []
    else if s[0] == '\r' then "\n" + UniversalNewlines(if |s| > 1 && s[1] == '\n' then s[2..] else s[1..])
    else [s[0]] + UniversalNewlines(s[1..])
  }

  /** The lines of a decoded text: each keeps its "\n", the last one may lack it. */
  function SplitLines(s: string): seq<string>
    decreases |s|
  {
    if s == [] then []
    else
      var n := LineEnd(s);
      if n == |s| then [s] else [s[..n + 1]] + SplitLines(s[n + 1..])
  }

  /** Python's f.readlines() on a file opened in text mode. */
  function ReadLines(s: string): seq<string>
  {
    SplitLines(UniversalNewlines(s))
  }

  /** A "\r" ends a line too: "a\rb" reads as the two lines "a\n" and "b". */
  lemma CarriageReturnEndsLine()
    ensures ReadLines("a\rb") == ["a\n", "b"]
  {
    assert UniversalNewlines("a\rb") == "a\nb" by {
      assert "a\rb"[1..] == "\rb" && "\rb"[1..] == "b" && "b"[1..] == [];
    }
    var s := "a\nb";
    assert LineEnd(s) == 1 by {
      assert s[1..] == "\nb";
    }
    assert s[..2] == "a\n" && s[2..] == "b";
    assert LineEnd("b") == 1 by {
      assert "b"[1..] == [];
    }
  }

  /** The lines of a file written with "\n".join, as readlines returns them. */
  function Terminated(lines: seq<string>): (r: seq<string>)
    ensures |r| == |lines|
  {
    seq(|lines|, i requires 0 <= i < |lines| => if i < |lines| - 1 then lines[i] + "\n" else lines[i])
  }

  /** No line holds a line break, "\n" or "\r". */
  predicate NoNewlines(lines: seq<string>)
  {
    forall i :: 0 <= i < |lines| ==> '\n' !in lines[i] && '\r' !in lines[i]
  }

  /**
   * Reading back a file written with "\n".join gives one line per written line, each but
   * the last with its terminator, when no line holds a line break and the last is not
   * empty (an empty last line leaves no trace in the file).
   */
  lemma ReadJoined(lines: seq<string>)
    requires NoNewlines(lines)
    requires lines != [] ==> lines[|lines| - 1] != []
    ensures ReadLines(JoinLines(lines)) == Terminated(lines)
  {
    JoinedNoCarriageReturn(lines);
    assert forall i :: 0 <= i < |lines| ==> '\n' !in lines[i];
    SplitJoined(lines);
  }

  lemma {:induction false} JoinedNoCarriageReturn(lines: seq<string>)
    requires NoNewlines(lines)
    ensures '\r' !in JoinLines(lines)
  {
    if |lines| > 1 {
      JoinedNoCarriageReturn(lines[1..]);
      assert '\r' !in lines[0];
    }
  }

  lemma {:induction false} SplitJoined(lines: seq<string>)
    requires forall i :: 0 <= i < |lines| ==> '\n' !in lines[i]
    requires lines != [] ==> lines[|lines| - 1] != []
    ensures SplitLines(JoinLines(lines)) == Terminated(lines)
  {
    if |lines| == 1 {
      assert LineEnd(lines[0]) == |lines[0]|;
    } else if |lines| > 1 {
      var head, rest := lines[0], JoinLines(lines[1..]);
      var s := head + "\n" + rest;
      LineEndAt(head, rest);
      assert s[..|head| + 1] == head + "\n";
      assert s[|head| + 1..] == rest;
      SplitJoined(lines[1..]);
      assert Terminated(lines) == [head + "\n"] + Terminated(lines[1..]);
    }
  }

  lemma LineEndAt(head: string, rest: string)
    requires '\n' !in head
    ensures LineEnd(head + "\n" + rest) == |head|
  {
    var s := head + "\n" + rest;
    assert s[|head|] == '\n';
    assert forall j :: 0 <= j < |head| ==> s[j] == head[j];
  }

  /** Python's s.replace(a, b) for single characters. */
  function ReplaceChar(s: string, a: char, b: char): (r: string)
    ensures |r| == |s|
    ensures forall i :: 0 <= i < |s| ==> r[i] == (if s[i] == a then b else s[i])
  {
    if s == [] then [] else [if s[0] == a then b else s[0]] + ReplaceChar(s[1..], a, b)
  }
}
