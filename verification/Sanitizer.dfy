/** Cleaning an article's text in place before it is cut into words. */
module Sanitizer {

  const SKIP_CHARS := {
    '.', '?', '!', '(', ')', '$', ',', '>', '<', '^', '-', '_', '=', '|', '+', ' ', '*', '"', '\\', '/',
    '[', ']', '{', '}', ';', '%', '#', '`', '&', '~', '@'
  }

  /** The look-up of a character in the list also finds the zero character that ends the list. */
  predicate Skipped(c: char) {
    c in SKIP_CHARS || c == '\0'
  }

  lemma SeparatorsAreNotSkipped()
    ensures !Skipped(':') && !Skipped('\n')
  {
  }

  /** What is left of a text: characters of the list go, and from a colon on everything up to the end of
    * the line, with the end itself. */
  function Sanitize(s: string): string
    decreases |s|
  {
    if s == [] then []
    else if Skipped(s[0]) then Sanitize(s[1..])
    else if s[0] == ':' then Sanitize(PastLine(s))
    else [s[0]] + Sanitize(s[1..])
  }

  /** The text after the first newline. */
  function PastLine(s: string): (r: string)
    ensures s != [] ==> |r| < |s|
    ensures |r| <= |s|
  {
    if s == [] then []
    else if s[0] == '\n' then s[1..]
    else PastLine(s[1..])
  }

  lemma {:induction false} PastLineAt(s: string, i: nat)
    requires i <= |s| && forall k :: 0 <= k < i ==> s[k] != '\n'
    ensures PastLine(s) == if i < |s| && s[i] == '\n' then s[i + 1..] else PastLine(s[i..])
    decreases i
  {
    if i > 0 {
      PastLineAt(s[1..], i - 1);
      assert s[1..][i - 1..] == s[i..];
      if i < |s| && s[i] == '\n' {
        assert s[1..][i..] == s[i + 1..];
      }
    } else {
      assert s[0..] == s;
    }
  }

  lemma NextChar(s: string, i: nat)
    requires i < |s| && (Skipped(s[i]) || s[i] != ':')
    ensures Sanitize(s[i..]) == (if Skipped(s[i]) then [] else [s[i]]) + Sanitize(s[i + 1..])
  {
    hide Skipped;
    assert s[i..][1..] == s[i + 1..];
  }

  lemma NextLine(s: string, start: nat, i: nat)
    requires start <= i <= |s| && start < |s| && s[start] == ':' && !Skipped(':')
    requires (i < |s| ==> s[i] == '\n') && forall k :: start <= k < i ==> s[k] != '\n'
    ensures Sanitize(s[start..]) == if i < |s| then Sanitize(s[i + 1..]) else []
  {
    hide Skipped;
    PastLineAt(s[start..], i - start);
    if i < |s| {
      assert s[start..][i - start + 1..] == s[i + 1..];
    } else {
      assert s[start..][i - start..] == [];
    }
  }

  /** Moves the characters that stay to the front; answers how many they are. */
  method SanitizeContent(s: array<char>) returns (newSize: nat)
    modifies s
    ensures newSize <= s.Length && s[..newSize] == Sanitize(old(s[..]))
  {
    hide Skipped, Sanitize, PastLine;
    newSize := 0;
    ghost var all := s[..];
    var i := 0;
    assert all[0..] == all && [] + Sanitize(all) == Sanitize(all);
    while i < s.Length
      invariant newSize <= i <= s.Length
      invariant forall k :: i <= k < s.Length ==> s[k] == all[k]
      invariant s[..newSize] + Sanitize(all[i..]) == Sanitize(all)
    {
      var c := s[i];
      if Skipped(c) {
        NextChar(all, i);
        assert [] + Sanitize(all[i + 1..]) == Sanitize(all[i + 1..]);
        i := i + 1;
        continue;
      }
      if c != ':' {
        NextChar(all, i);
        ghost var front := s[..newSize];
        s[newSize] := c;
        assert s[..newSize + 1] == front + [c];
        assert front + ([c] + Sanitize(all[i + 1..])) == (front + [c]) + Sanitize(all[i + 1..]);
        newSize := newSize + 1;
      } else {
        ghost var start := i;
        while i < s.Length && s[i] != '\n'
          invariant start <= i <= s.Length
          invariant forall k :: start <= k < i ==> all[k] != '\n'
        {
          i := i + 1;
        }
        NextLine(all, start, i);
        if i == s.Length {
          assert s[..newSize] + [] == s[..newSize];
          return;
        }
      }
      i := i + 1;
    }
    NothingLeft(all);
    assert s[..newSize] + [] == s[..newSize];
  }

  lemma NothingLeft(s: string)
    ensures Sanitize(s[|s|..]) == []
  {
  }

  predicate Clean(s: string) {
    forall k :: 0 <= k < |s| ==> !Skipped(s[k]) && s[k] != ':'
  }

  /** Nothing unwanted is left. */
  lemma {:induction false} SanitizedIsClean(s: string)
    ensures Clean(Sanitize(s))
    decreases |s|
  {
    if s == [] {
    } else if s[0] == ':' && !Skipped(s[0]) {
      SanitizedIsClean(PastLine(s));
    } else {
      SanitizedIsClean(s[1..]);
    }
  }

  lemma {:induction false} SanitizedIsShorter(s: string)
    ensures |Sanitize(s)| <= |s|
    ensures s != [] && (Skipped(s[0]) || s[0] == ':') ==> |Sanitize(s)| < |s|
    decreases |s|
  {
    if s == [] {
    } else if s[0] == ':' && !Skipped(s[0]) {
      SanitizedIsShorter(PastLine(s));
    } else {
      SanitizedIsShorter(s[1..]);
    }
  }

  /** A text is left as it is exactly when it is clean. */
  lemma {:induction false} UnchangedIffClean(s: string)
    ensures Sanitize(s) == s <==> Clean(s)
    decreases |s|
  {
    SanitizedIsShorter(s);
    if s != [] {
      UnchangedIffClean(s[1..]);
      if !Skipped(s[0]) && s[0] != ':' {
        assert [s[0]] + s[1..] == s;
        assert ([s[0]] + Sanitize(s[1..]))[1..] == Sanitize(s[1..]);
        assert Clean(s) <==> Clean(s[1..]) by {
          assert forall k :: 0 <= k < |s[1..]| ==> s[1..][k] == s[k + 1];
        }
      } else {
        assert !Clean(s);
      }
    }
  }

  /** Cleaning twice is cleaning once. */
  lemma SanitizeTwice(s: string)
    ensures Sanitize(Sanitize(s)) == Sanitize(s)
  {
    SanitizedIsClean(s);
    UnchangedIffClean(Sanitize(s));
  }

  // ----- Line by line -----

  /** The characters of a line that stay, up to its first colon. */
  function BeforeColon(line: string): string {
    if line == [] || line[0] == ':' then []
    else (if Skipped(line[0]) then [] else [line[0]]) + BeforeColon(line[1..])
  }

  lemma Join(c: char, a: string, b: string, d: string)
    ensures [c] + (a + b + d) == ([c] + a) + b + d
  {
  }

  /** Lines are cleaned one by one; a line with a colon loses its end, so the next line is joined to it. */
  lemma {:induction false} SanitizeByLines(line: string, rest: string)
    requires '\n' !in line
    ensures Sanitize(line + ['\n'] + rest) == BeforeColon(line) + (if ':' in line then [] else ['\n']) + Sanitize(rest)
    decreases |line|
  {
    hide Skipped;
    SeparatorsAreNotSkipped();
    var s := line + ['\n'] + rest;
    var end := if ':' in line then [] else ['\n'];
    if line == [] {
      assert s[1..] == rest;
    } else {
      var tail := line[1..];
      assert s[0] == line[0] && s[1..] == tail + ['\n'] + rest;
      if Skipped(line[0]) {
        SanitizeByLines(tail, rest);
        assert [] + BeforeColon(tail) == BeforeColon(tail);
      } else if line[0] == ':' {
        PastLineAt(s, |line|);
        assert s[|line| + 1..] == rest;
      } else {
        SanitizeByLines(tail, rest);
        Join(line[0], BeforeColon(tail), end, Sanitize(rest));
      }
    }
  }

  /** So does the last line. */
  lemma {:induction false} SanitizeLastLine(line: string)
    requires '\n' !in line
    ensures Sanitize(line) == BeforeColon(line)
    decreases |line|
  {
    hide Skipped;
    SeparatorsAreNotSkipped();
    if line != [] {
      if line[0] == ':' {
        PastLineAt(line, |line|);
      } else {
        SanitizeLastLine(line[1..]);
      }
    }
  }
}
