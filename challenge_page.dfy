/**
 * The client side of the challenge page (EcoWorld/static/EcoWorld/js/challenges.js): reading the
 * CSRF token out of the cookie string, and rewriting an objective's "progress/goal" text after a
 * successful increment, with the completion prompt when the goal is reached.
 * JavaScript's `split`, `trim` and `startsWith` are defined here on `seq<char>`.
 */
module ChallengePage {
  import opened Basics

  /** `s.split(sep)`: the pieces between separators, one more than there are separators. */
  function Split(s: string, sep: char): (parts: seq<string>)
    ensures |parts| >= 1
    ensures sep in s ==> |parts| >= 2
  {
    if s == [] then [""]
    else if s[0] == sep then [""] + Split(s[1..], sep)
    else
      var rest := Split(s[1..], sep);
      assert sep in s ==> sep in s[1..];
      [[s[0]] + rest[0]] + rest[1..]
  }

  /** No piece holds the separator, and a string without one is its own only piece. */
  lemma {:induction false} SplitPieces(s: string, sep: char)
    ensures forall p :: p in Split(s, sep) ==> sep !in p
    ensures sep !in s ==> Split(s, sep) == [s]
  {
    if s != [] {
      SplitPieces(s[1..], sep);
      var rest := Split(s[1..], sep);
      if s[0] != sep {
        assert rest[0] in rest;
        assert forall p :: p in rest[1..] ==> p in rest;
        assert s == [s[0]] + s[1..];
      }
    }
  }

  /** `parts.join(sep)`. */
  function Join(parts: seq<string>, sep: char): string
    requires |parts| >= 1
  {
    if |parts| == 1 then parts[0] else parts[0] + [sep] + Join(parts[1..], sep)
  }

  /** Joining the pieces of a split gives back the string. */
  lemma {:induction false} JoinSplit(s: string, sep: char)
    ensures Join(Split(s, sep), sep) == s
  {
    if s != [] {
      JoinSplit(s[1..], sep);
      var rest := Split(s[1..], sep);
      if s[0] != sep && |rest| > 1 {
        assert Join(rest, sep) == rest[0] + [sep] + Join(rest[1..], sep);
        var parts := [[s[0]] + rest[0]] + rest[1..];
        assert parts[1..] == rest[1..];
      }
    }
  }

  /** A separator-free prefix joins the first piece. */
  lemma {:induction false} SplitPrefix(a: string, b: string, sep: char)
    requires sep !in a
    ensures Split(a + b, sep) == [a + Split(b, sep)[0]] + Split(b, sep)[1..]
  {
    if a != [] {
      SplitPrefix(a[1..], b, sep);
      assert (a + b)[0] == a[0] && (a + b)[1..] == a[1..] + b;
      var rest := Split(a[1..] + b, sep);
      assert rest[0] == a[1..] + Split(b, sep)[0];
      assert rest[1..] == Split(b, sep)[1..];
      assert Split(a + b, sep) == [[a[0]] + rest[0]] + rest[1..];
      assert [a[0]] + (a[1..] + Split(b, sep)[0]) == a + Split(b, sep)[0];
    } else {
      assert a + b == b;
      assert a + Split(b, sep)[0] == Split(b, sep)[0];
    }
  }

  /** Splitting a join of separator-free pieces gives back the pieces. */
  lemma {:induction false} SplitJoin(parts: seq<string>, sep: char)
    requires |parts| >= 1
    requires forall p :: p in parts ==> sep !in p
    ensures Split(Join(parts, sep), sep) == parts
  {
    if |parts| == 1 {
      SplitPrefix(parts[0], "", sep);
      assert parts[0] + "" == parts[0];
    } else {
      SplitJoin(parts[1..], sep);
      var tail := [sep] + Join(parts[1..], sep);
      assert parts[0] + [sep] + Join(parts[1..], sep) == parts[0] + tail;
      SplitPrefix(parts[0], tail, sep);
      assert tail[1..] == Join(parts[1..], sep);
      assert Split(tail, sep) == [""] + parts[1..];
      assert parts[0] + "" == parts[0];
    }
  }

  /** The whitespace `trim` removes (the ASCII spaces, no-break space and byte-order mark). */
  predicate IsSpace(c: char)
  {
    c == ' ' || c == '\t' || c == '\n' || c == '\r' || c == '\U{000B}' || c == '\U{000C}' ||
    c == '\U{00A0}' || c == '\U{FEFF}'
  }

  predicate AllSpace(s: string)
  {
    forall i :: 0 <= i < |s| ==> IsSpace(s[i])
  }

  /** Leading whitespace removed. */
  function TrimStart(s: string): string
  {
    if s != [] && IsSpace(s[0]) then TrimStart(s[1..]) else s
  }

  /** Trailing whitespace removed. */
  function TrimEnd(s: string): string
  {
    if s != [] && IsSpace(s[|s| - 1]) then TrimEnd(s[..|s| - 1]) else s
  }

  /** `TrimStart` keeps the longest suffix that does not start with a space, and drops only spaces. */
  lemma {:induction false} TrimStartShape(s: string)
    ensures |TrimStart(s)| <= |s| && TrimStart(s) == s[|s| - |TrimStart(s)|..]
    ensures AllSpace(s[..|s| - |TrimStart(s)|])
    ensures TrimStart(s) == [] || !IsSpace(TrimStart(s)[0])
  {
    if s != [] && IsSpace(s[0]) {
      TrimStartShape(s[1..]);
      var n := |s| - |TrimStart(s)|;
      assert s[1..][..n - 1] == s[1..n];
      assert forall i :: 1 <= i < n ==> s[i] == s[1..n][i - 1];
    }
  }

  /** `TrimEnd` keeps the longest prefix that does not end with a space, and drops only spaces. */
  lemma {:induction false} TrimEndShape(s: string)
    ensures |TrimEnd(s)| <= |s| && TrimEnd(s) == s[..|TrimEnd(s)|]
    ensures AllSpace(s[|TrimEnd(s)|..])
    ensures TrimEnd(s) == [] || !IsSpace(TrimEnd(s)[|TrimEnd(s)| - 1])
  {
    if s != [] && IsSpace(s[|s| - 1]) {
      TrimEndShape(s[..|s| - 1]);
      var n := |TrimEnd(s)|;
      assert s[..|s| - 1][n..] == s[n..|s| - 1];
      assert forall i :: n <= i < |s| - 1 ==> s[i] == s[n..|s| - 1][i - n];
    }
  }

  /** `s.trim()`. */
  function Trim(s: string): string
  {
    TrimEnd(TrimStart(s))
  }

  lemma {:induction false} TrimStartSkips(a: string, t: string)
    requires AllSpace(a)
    ensures TrimStart(a + t) == TrimStart(t)
  {
    if a != [] {
      assert (a + t)[0] == a[0] && (a + t)[1..] == a[1..] + t;
      assert forall i :: 0 <= i < |a| - 1 ==> a[1..][i] == a[i + 1];
      TrimStartSkips(a[1..], t);
    } else {
      assert a + t == t;
    }
  }

  lemma {:induction false} TrimEndSkips(t: string, b: string)
    requires AllSpace(b)
    ensures TrimEnd(t + b) == TrimEnd(t)
  {
    if b != [] {
      assert (t + b)[|t + b| - 1] == b[|b| - 1] && (t + b)[..|t + b| - 1] == t + b[..|b| - 1];
      assert forall i :: 0 <= i < |b| - 1 ==> b[..|b| - 1][i] == b[i];
      TrimEndSkips(t, b[..|b| - 1]);
    } else {
      assert t + b == t;
    }
  }

  /** Whitespace around a text that starts and ends with a non-space is exactly what `trim` removes. */
  lemma TrimPadded(a: string, s: string, b: string)
    requires AllSpace(a) && AllSpace(b)
    requires s != [] && !IsSpace(s[0]) && !IsSpace(s[|s| - 1])
    ensures Trim(a + s + b) == s
  {
    assert a + s + b == a + (s + b);
    TrimStartSkips(a, s + b);
    assert TrimStart(s + b) == s + b;
    TrimEndSkips(s, b);
  }

  const TokenPrefix: string := "csrftoken="

  predicate StartsWith(s: string, prefix: string)
  {
    |prefix| <= |s| && s[..|prefix|] == prefix
  }

  /** A cookie segment that carries the token. */
  predicate Carries(segment: string)
  {
    StartsWith(Trim(segment), TokenPrefix)
  }

  /** The value of the first segment carrying the token. */
  function FirstToken(segments: seq<string>): Option<string>
  {
    if segments == [] then None
    else if Carries(segments[0]) then Some(Trim(segments[0])[|TokenPrefix|..])
    else FirstToken(segments[1..])
  }

  /** No token exactly when no segment carries one. */
  lemma {:induction false} FirstTokenNone(segments: seq<string>)
    ensures FirstToken(segments).None? <==> forall i :: 0 <= i < |segments| ==> !Carries(segments[i])
  {
    if segments != [] {
      FirstTokenNone(segments[1..]);
      assert forall i :: 1 <= i < |segments| ==> segments[i] == segments[1..][i - 1];
    }
  }

  /** The token is the text after the prefix in the first segment that carries it. */
  lemma {:induction false} FirstTokenAt(segments: seq<string>, i: nat)
    requires i < |segments| && Carries(segments[i])
    requires forall j :: 0 <= j < i ==> !Carries(segments[j])
    ensures FirstToken(segments) == Some(Trim(segments[i])[|TokenPrefix|..])
    ensures Trim(segments[i]) == TokenPrefix + FirstToken(segments).value
  {
    if i > 0 {
      assert !Carries(segments[0]);
      assert forall j :: 0 <= j < i - 1 ==> segments[1..][j] == segments[j + 1];
      FirstTokenAt(segments[1..], i - 1);
    }
  }

  /** What `getCSRFToken` returns for `document.cookie`. */
  function CsrfToken(cookie: string): Option<string>
  {
    if cookie == "" then None else FirstToken(Split(cookie, ';'))
  }

  /** `getCSRFToken`: scan the trimmed segments and stop at the first one carrying the token. */
  method GetCsrfToken(cookie: string) returns (cookieValue: Option<string>)
    ensures cookieValue == CsrfToken(cookie)
  {
    cookieValue := None;
    if cookie != "" {
      var cookies := Split(cookie, ';');
      var i := 0;
      while i < |cookies|
        invariant 0 <= i <= |cookies|
        invariant FirstToken(cookies[i..]) == FirstToken(cookies)
        invariant cookieValue.None?
      {
        var segment := Trim(cookies[i]);
        if |TokenPrefix| <= |segment| && segment[..|TokenPrefix|] == TokenPrefix {
          cookieValue := Some(segment[|TokenPrefix|..]);
          assert cookies[i..][0] == cookies[i];
          break;
        }
        assert cookies[i..][1..] == cookies[i + 1..];
        i := i + 1;
      }
    }
  }

  /** An empty cookie string has no token. */
  lemma EmptyCookieHasNoToken()
    ensures CsrfToken("") == None
  {
  }

  /** The first carrying segment wins, whatever follows it. */
  lemma {:induction false} FirstTokenSkips(pre: seq<string>, rest: seq<string>)
    requires forall p :: p in pre ==> !Carries(p)
    ensures FirstToken(pre + rest) == FirstToken(rest)
  {
    if pre != [] {
      assert (pre + rest)[0] == pre[0];
      assert (pre + rest)[1..] == pre[1..] + rest;
      FirstTokenSkips(pre[1..], rest);
    } else {
      assert pre + rest == rest;
    }
  }

  /**
   * A token written into a cookie string as `csrftoken=<v>`, with any whitespace around it, is read
   * back unchanged, provided no earlier segment carries a token.
   */
  lemma TokenRoundTrip(pre: seq<string>, pad1: string, v: string, pad2: string, post: seq<string>)
    requires AllSpace(pad1) && AllSpace(pad2)
    requires ';' !in v && (v == [] || !IsSpace(v[|v| - 1]))
    requires ';' !in pad1 && ';' !in pad2
    requires forall p :: p in pre ==> ';' !in p && !Carries(p)
    requires forall p :: p in post ==> ';' !in p
    ensures CsrfToken(Join(pre + [pad1 + TokenPrefix + v + pad2] + post, ';')) == Some(v)
  {
    var segment := pad1 + TokenPrefix + v + pad2;
    var parts := pre + [segment] + post;
    TokenSegment(pad1, v, pad2);
    NoSeparatorIn(pre, segment, post);
    SplitJoin(parts, ';');
    EmptyCookieSplit(Join(parts, ';'));
    FirstCarrierWins(pre, segment, post);
  }

  lemma NoSeparatorIn(pre: seq<string>, segment: string, post: seq<string>)
    requires forall p :: p in pre ==> ';' !in p
    requires ';' !in segment
    requires forall p :: p in post ==> ';' !in p
    ensures forall p :: p in pre + [segment] + post ==> ';' !in p
  {
  }

  lemma FirstCarrierWins(pre: seq<string>, segment: string, post: seq<string>)
    requires forall p :: p in pre ==> !Carries(p)
    requires Carries(segment)
    ensures FirstToken(pre + [segment] + post) == Some(Trim(segment)[|TokenPrefix|..])
  {
    assert pre + [segment] + post == pre + ([segment] + post);
    FirstTokenSkips(pre, [segment] + post);
    assert ([segment] + post)[0] == segment;
  }

  /** The empty cookie string splits into one empty segment, which carries nothing. */
  lemma EmptyCookieSplit(cookie: string)
    ensures CsrfToken(cookie) == FirstToken(Split(cookie, ';'))
  {
    if cookie == "" {
      assert Trim("") == "";
    }
  }

  /** A padded `csrftoken=<v>` segment carries the token `v` and holds no ';'. */
  lemma TokenSegment(pad1: string, v: string, pad2: string)
    requires AllSpace(pad1) && AllSpace(pad2)
    requires ';' !in v && (v == [] || !IsSpace(v[|v| - 1]))
    requires ';' !in pad1 && ';' !in pad2
    ensures ';' !in pad1 + TokenPrefix + v + pad2
    ensures Carries(pad1 + TokenPrefix + v + pad2)
    ensures Trim(pad1 + TokenPrefix + v + pad2)[|TokenPrefix|..] == v
  {
    var segment := pad1 + TokenPrefix + v + pad2;
    assert ';' !in TokenPrefix + v;
    assert segment == pad1 + (TokenPrefix + v) + pad2;
    TrimPadded(pad1, TokenPrefix + v, pad2);
    assert (TokenPrefix + v)[..|TokenPrefix|] == TokenPrefix;
    assert (TokenPrefix + v)[|TokenPrefix|..] == v;
  }

  /** A decimal digit. */
  function Digit(d: int): char
    requires 0 <= d < 10
  {
    "0123456789"[d]
  }

  /** A number as a template literal prints it. */
  function Decimal(n: int): (r: string)
    ensures |r| >= 1 && '/' !in r
    decreases if n < 0 then 1 - n else n
  {
    if n < 0 then "-" + Decimal(-n)
    else if n < 10 then [Digit(n)]
    else Decimal(n / 10) + [Digit(n % 10)]
  }

  /** The new progress text: the reported progress over the old text's second '/'-separated field. */
  function Rewritten(text: string, progress: int): (r: string)
    requires '/' in text
  {
    Decimal(progress) + "/" + Split(text, '/')[1]
  }

  /** The rewrite shows the reported progress as numerator and keeps the old total. */
  lemma RewriteKeepsTotal(text: string, progress: int)
    requires '/' in text
    ensures '/' in Rewritten(text, progress)
    ensures Split(Rewritten(text, progress), '/') == [Decimal(progress), Split(text, '/')[1]]
  {
    var total := Split(text, '/')[1];
    SplitPieces(text, '/');
    assert total in Split(text, '/');
    var r := Rewritten(text, progress);
    assert r[|Decimal(progress)|] == '/';
    SplitJoin([Decimal(progress), total], '/');
    assert Join([Decimal(progress), total], '/') == r;
  }

  /** A later increment overwrites the numerator and leaves the total alone. */
  lemma RewriteTwice(text: string, p1: int, p2: int)
    requires '/' in text
    ensures '/' in Rewritten(text, p1)
    ensures Rewritten(Rewritten(text, p1), p2) == Rewritten(text, p2)
  {
    RewriteKeepsTotal(text, p1);
  }

  /** The `<span>` after the increment button. */
  class ProgressSpan {
    var textContent: string

    constructor (text: string)
      ensures textContent == text
    {
      textContent := text;
    }
  }

  /**
   * The success handler of `incrementObjective` for the reply (`success`, `progress`, `goal`):
   * the span's text is rewritten when it holds a '/', and the note prompt is shown when the
   * progress reaches the goal. Nothing happens on a failed reply, a missing span or a text
   * without '/'.
   */
  method OnIncrement(span: ProgressSpan?, success: bool, progress: int, goal: int) returns (prompted: bool)
    modifies span
    ensures span == null || !success ==> !prompted
    ensures span != null && (!success || '/' !in old(span.textContent)) ==>
              span.textContent == old(span.textContent) && !prompted
    ensures span != null && success && '/' in old(span.textContent) ==>
              span.textContent == Rewritten(old(span.textContent), progress) && (prompted <==> progress == goal)
  {
    prompted := false;
    if success && span != null {
      var text := span.textContent;
      if '/' in text {
        var parts := Split(text, '/');
        var total := parts[1];
        span.textContent := Decimal(progress) + "/" + total;
        prompted := progress == goal;
      }
    }
  }
}
