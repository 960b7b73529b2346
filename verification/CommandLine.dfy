/** How the shell cuts a command line into words, within the line's own buffer. */
module CommandLine {

  const MAXLINE := 1024
  const MAXARGS := 128
  const NUL := '\0'
  const NULL_PTR := -1

  /** The first position from i on that holds no space, or the end. */
  function SkipTo(s: seq<char>, i: nat): (j: nat)
    requires i <= |s|
    ensures i <= j <= |s| && forall k :: i <= k < j ==> s[k] == ' '
    ensures j < |s| ==> s[j] != ' '
    decreases |s| - i
  {
    if i < |s| && s[i] == ' ' then SkipTo(s, i + 1) else i
  }

  /** The first position from i on that holds c, or -1. */
  function Find(s: seq<char>, i: nat, c: char): (j: int)
    requires i <= |s|
    ensures j < 0 ==> forall k :: i <= k < |s| ==> s[k] != c
    ensures j >= 0 ==> i <= j < |s| && s[j] == c && forall k :: i <= k < j ==> s[k] != c
    decreases |s| - i
  {
    if i == |s| then -1 else if s[i] == c then i else Find(s, i + 1, c)
  }

  predicate IsQuote(s: seq<char>, j: nat) {
    j < |s| && s[j] == '\''
  }

  /** Where the word at j starts, past a quote, and where its delimiter is, or -1. */
  function WordStart(s: seq<char>, j: nat): nat {
    if IsQuote(s, j) then j + 1 else j
  }

  function WordEnd(s: seq<char>, j: nat): (d: int)
    requires j <= |s|
    ensures d < 0 || WordStart(s, j) <= d < |s|
  {
    Find(s, WordStart(s, j), if IsQuote(s, j) then '\'' else ' ')
  }

  /** The words from position i on: quoted up to the next quote, others up to the next space.  A word
      without its delimiter ends the list and is dropped. */
  function Words(s: seq<char>, i: nat): seq<seq<char>>
    requires i <= |s|
    decreases |s| - i
  {
    var j := SkipTo(s, i);
    var d := WordEnd(s, j);
    if d < 0 then [] else [s[WordStart(s, j)..d]] + Words(s, d + 1)
  }

  /** What is parsed: the line with its last character, the newline, replaced by a space. */
  function Text(cmdline: seq<char>): seq<char>
    requires cmdline != []
  {
    cmdline[..|cmdline| - 1] + [' ']
  }

  predicate Ampersand(w: seq<char>) {
    w != [] && w[0] == '&'
  }

  /** The arguments, and whether the job is to run in the background. */
  function Parse(cmdline: seq<char>): (seq<seq<char>>, bool)
    requires cmdline != []
  {
    var ws := Words(Text(cmdline), 0);
    if ws == [] then ([], true)
    else if Ampersand(ws[|ws| - 1]) then (ws[..|ws| - 1], true)
    else (ws, false)
  }

  // ---------------------------------------------------------------- the code

  /** At address p of the buffer stands the C string w. */
  ghost predicate StringAt(b: seq<char>, p: int, w: seq<char>) {
    0 <= p && p + |w| < |b| && b[p..p + |w|] == w && b[p + |w|] == NUL && NUL !in w
  }

  /** The buffer still holds the text from p on, closed by a NUL. */
  ghost predicate Rest(b: seq<char>, text: seq<char>, p: int) {
    0 <= p <= |text| < |b| && b[p..|text|] == text[p..] && b[|text|] == NUL && NUL !in text
  }

  lemma RestAt(b: seq<char>, text: seq<char>, p: int, k: int)
    requires Rest(b, text, p) && p <= k <= |text|
    ensures k < |text| ==> b[k] == text[k] && b[k] != NUL
    ensures k == |text| ==> b[k] == NUL
  {
    if k < |text| {
      assert b[k] == b[p..|text|][k - p] && text[k] == text[p..][k - p];
      assert text[k] in text;
    }
  }

  method SkipSpaces(a: array<char>, ghost text: seq<char>, p: nat) returns (q: nat)
    requires Rest(a[..], text, p)
    ensures q == SkipTo(text, p)
  {
    q := p;
    RestAt(a[..], text, p, q);
    while a[q] != NUL && a[q] == ' '
      invariant p <= q <= |text| && SkipTo(text, p) == SkipTo(text, q)
      invariant q < |text| ==> a[q] == text[q] && a[q] != NUL
      invariant q == |text| ==> a[q] == NUL
      decreases |text| - q
    {
      q := q + 1;
      RestAt(a[..], text, p, q);
    }
  }

  /** strchr */
  method StrChr(a: array<char>, ghost text: seq<char>, p: nat, c: char) returns (d: int)
    requires Rest(a[..], text, p) && c != NUL
    ensures d == Find(text, p, c)
  {
    d := p;
    RestAt(a[..], text, p, d);
    while a[d] != NUL
      invariant p <= d <= |text| && Find(text, p, c) == Find(text, d, c)
      invariant d < |text| ==> a[d] == text[d] && a[d] != NUL
      invariant d == |text| ==> a[d] == NUL
      decreases |text| - d
    {
      if a[d] == c {
        return;
      }
      d := d + 1;
      RestAt(a[..], text, p, d);
    }
    d := -1;
  }

  lemma RestLater(b: seq<char>, text: seq<char>, p: int, q: int)
    requires Rest(b, text, p) && p <= q <= |text|
    ensures Rest(b, text, q)
  {
    assert b[q..|text|] == b[p..|text|][q - p..];
    assert text[q..] == text[p..][q - p..];
  }

  /** Finds the next word: its start past a quote, and its delimiter or -1. */
  method NextWord(a: array<char>, ghost text: seq<char>, p: nat) returns (buf: nat, delim: int)
    requires Rest(a[..], text, p)
    ensures buf == WordStart(text, SkipTo(text, p)) && delim == WordEnd(text, SkipTo(text, p))
  {
    buf := SkipSpaces(a, text, p);
    RestAt(a[..], text, p, buf);
    if a[buf] == '\'' {
      buf := buf + 1;
      RestLater(a[..], text, p, buf);
      delim := StrChr(a, text, buf, '\'');
    } else {
      RestLater(a[..], text, p, buf);
      delim := StrChr(a, text, buf, ' ');
    }
  }

  /** The first argc words stand in the buffer, all before address p. */
  ghost predicate Stand(b: seq<char>, argv: seq<int>, ws: seq<seq<char>>, p: int) {
    && |ws| <= |argv|
    && (forall k :: 0 <= k < |ws| ==> StringAt(b, argv[k], ws[k]) && argv[k] + |ws[k]| < p)
  }

  /** Cutting a word off at its delimiter. */
  lemma CutWord(b: seq<char>, b': seq<char>, argv: seq<int>, argv': seq<int>, ws: seq<seq<char>>, text: seq<char>, p: int, buf: int, d: int)
    requires Rest(b, text, p) && Stand(b, argv, ws, p) && |ws| < |argv| && p <= buf <= d < |text|
    requires b' == b[d := NUL] && argv' == argv[|ws| := buf]
    ensures Rest(b', text, d + 1) && Stand(b', argv', ws + [text[buf..d]], d + 1)
  {
    var ws' := ws + [text[buf..d]];
    RestLater(b, text, p, d + 1);
    assert b'[d + 1..|text|] == b[d + 1..|text|];
    forall k | 0 <= k < |ws'| ensures StringAt(b', argv'[k], ws'[k]) && argv'[k] + |ws'[k]| < d + 1 {
      if k < |ws| {
        assert StringAt(b, argv[k], ws[k]);
        assert b'[argv[k]..argv[k] + |ws[k]|] == b[argv[k]..argv[k] + |ws[k]|];
      } else {
        RestLater(b, text, p, buf);
        assert b'[buf..d] == b[buf..|text|][..d - buf];
        assert text[buf..d] == text[buf..][..d - buf];
      }
    }
  }

  /** Copies the line into the buffer and replaces its last character by a space. */
  method CopyLine(cmdline: seq<char>, a: array<char>)
    requires 1 <= |cmdline| < a.Length && NUL !in cmdline
    modifies a
    ensures Rest(a[..], Text(cmdline), 0)
  {
    var i := 0;
    while i < |cmdline|
      invariant 0 <= i <= |cmdline| && a[..i] == cmdline[..i]
    {
      a[i] := cmdline[i];
      i := i + 1;
    }
    a[|cmdline|] := NUL;
    a[|cmdline| - 1] := ' ';
    assert a[..][0..|cmdline|] == Text(cmdline)[0..];
  }

  /** The loop: cuts the words off one after the other. */
  method CutWords(ghost text: seq<char>, a: array<char>, argv: array<int>) returns (argc: nat)
    requires Rest(a[..], text, 0) && |Words(text, 0)| < argv.Length
    modifies a, argv
    ensures argc == |Words(text, 0)|
    ensures Stand(a[..], argv[..], Words(text, 0), |text| + 1)
    ensures forall k :: argc <= k < argv.Length ==> argv[k] == old(argv[k])
  {
    hide SkipTo; hide Find; hide StringAt; hide Rest; hide Stand; hide Words;
    argc := 0;
    ghost var ws: seq<seq<char>>, p := [], 0;
    StandNone(a[..], argv[..]);
    TextEnds(a[..], text);
    var buf, delim := NextWord(a, text, 0);
    while delim >= 0
      invariant 0 <= p <= |text| && Rest(a[..], text, p)
      invariant buf == WordStart(text, SkipTo(text, p)) && delim == WordEnd(text, SkipTo(text, p))
      invariant Words(text, 0) == ws + Words(text, p)
      invariant argc == |ws| && Stand(a[..], argv[..], ws, p)
      invariant forall k :: argc <= k < argv.Length ==> argv[k] == old(argv[k])
      decreases |text| - p
    {
      WordsStep(text, p, ws);
      ghost var b, v := a[..], argv[..];
      argv[argc] := buf;
      argc := argc + 1;
      a[delim] := NUL;
      CutWord(b, a[..], v, argv[..], ws, text, p, buf, delim);
      ws := ws + [text[buf..delim]];
      p := delim + 1;
      buf, delim := NextWord(a, text, delim + 1);
    }
    WordsDone(text, p, ws);
    StandLonger(a[..], argv[..], ws, p, |text| + 1);
  }

  lemma WordsStep(text: seq<char>, p: nat, ws: seq<seq<char>>)
    requires p <= |text| && WordEnd(text, SkipTo(text, p)) >= 0
    ensures var d := WordEnd(text, SkipTo(text, p));
            ws + Words(text, p) == ws + [text[WordStart(text, SkipTo(text, p))..d]] + Words(text, d + 1)
  {
  }

  lemma WordsDone(text: seq<char>, p: nat, ws: seq<seq<char>>)
    requires p <= |text| && WordEnd(text, SkipTo(text, p)) < 0
    ensures ws + Words(text, p) == ws
  {
  }

  lemma TextEnds(b: seq<char>, text: seq<char>)
    requires Rest(b, text, 0)
    ensures |text| < |b|
  {
  }

  lemma StandNone(b: seq<char>, argv: seq<int>)
    ensures Stand(b, argv, [], 0)
  {
  }

  lemma StandLonger(b: seq<char>, argv: seq<int>, ws: seq<seq<char>>, p: int, q: int)
    requires Stand(b, argv, ws, p) && p <= q
    ensures Stand(b, argv, ws, q)
  {
  }

  /** The first character of an argument, as the shell reads it. */
  lemma FirstChar(b: seq<char>, argv: seq<int>, ws: seq<seq<char>>, p: int, k: int)
    requires Stand(b, argv, ws, p) && 0 <= k < |ws|
    ensures 0 <= argv[k] < |b| && (b[argv[k]] == '&' <==> Ampersand(ws[k]))
  {
    assert StringAt(b, argv[k], ws[k]);
    if ws[k] != [] {
      assert b[argv[k]] == b[argv[k]..argv[k] + |ws[k]|][0];
    }
  }

  /** parseline: afterwards argv points at the arguments within the buffer, and ends with NULL.  It is written
      up to the entry behind the last word, which nothing keeps below MAXARGS. */
  method ParseLine(cmdline: seq<char>, a: array<char>, argv: array<int>) returns (bg: bool)
    requires 1 <= |cmdline| < MAXLINE == a.Length && NUL !in cmdline
    requires |Words(Text(cmdline), 0)| < argv.Length
    modifies a, argv
    ensures Stand(a[..], argv[..], Parse(cmdline).0, MAXLINE)
    ensures argv[|Parse(cmdline).0|] == NULL_PTR
    ensures bg == Parse(cmdline).1
    ensures forall k :: 0 <= k <= |Words(Text(cmdline), 0)| ==> NULL_PTR <= argv[k] < MAXLINE
    ensures forall k :: |Words(Text(cmdline), 0)| < k < argv.Length ==> argv[k] == old(argv[k])
    ensures MAXARGS < argv.Length && old(argv[MAXARGS]) < NULL_PTR ==>
              (argv[MAXARGS] == old(argv[MAXARGS]) <==> |Words(Text(cmdline), 0)| < MAXARGS)
  {
    hide Words; hide StringAt; hide Rest;
    CopyLine(cmdline, a);
    var argc := CutWords(Text(cmdline), a, argv);
    ghost var ws := Words(Text(cmdline), 0);
    assert forall k :: 0 <= k < argc ==> 0 <= argv[k] < MAXLINE by {
      forall k | 0 <= k < argc ensures 0 <= argv[k] < MAXLINE {
        FirstChar(a[..], argv[..], ws, |cmdline| + 1, k);
      }
    }
    argv[argc] := NULL_PTR;
    if argc == 0 {
      return true;
    }
    FirstChar(a[..], argv[..], ws, |cmdline| + 1, argc - 1);
    bg := a[argv[argc - 1]] == '&';
    if bg {
      argc := argc - 1;
      argv[argc] := NULL_PTR;
    }
  }

  // ---------------------------------------------------------------- parsing undoes rendering

  function Spaces(n: nat): seq<char> {
    seq(n, _ => ' ')
  }

  /** A word to be written, after `gap` spaces. */
  datatype Item = Item(gap: nat, quoted: bool, word: seq<char>)

  /** What can be written bare: nonempty, no space, no leading quote; in quotes: no quote. */
  predicate Writable(x: Item) {
    if x.quoted then '\'' !in x.word else x.word != [] && ' ' !in x.word && x.word[0] != '\''
  }

  /** Words to be written one after the other; behind a bare one there must be a space. */
  predicate AllWritable(xs: seq<Item>) {
    forall k :: 0 <= k < |xs| ==> Writable(xs[k]) && (k > 0 && !xs[k - 1].quoted ==> xs[k].gap > 0)
  }

  function Written(x: Item): seq<char> {
    Spaces(x.gap) + if x.quoted then ['\''] + x.word + ['\''] else x.word
  }

  function Render(xs: seq<Item>): seq<char> {
    if xs == [] then [] else Written(xs[0]) + Render(xs[1..])
  }

  function TheWords(xs: seq<Item>): seq<seq<char>> {
    seq(|xs|, k requires 0 <= k < |xs| => xs[k].word)
  }

  lemma SkipIs(s: seq<char>, i: nat, j: nat)
    requires i <= j < |s| && s[j] != ' ' && forall k :: i <= k < j ==> s[k] == ' '
    ensures SkipTo(s, i) == j
  {
  }

  lemma FindIs(s: seq<char>, i: nat, j: nat, c: char)
    requires i <= j < |s| && s[j] == c && forall k :: i <= k < j ==> s[k] != c
    ensures Find(s, i, c) == j
  {
  }

  /** A bare word between spaces. */
  lemma BareWord(s: seq<char>, i: nat, j: nat, e: nat)
    requires i <= j < e < |s| && (forall k :: i <= k < j ==> s[k] == ' ')
    requires s[j] != '\'' && ' ' !in s[j..e] && s[e] == ' '
    ensures Words(s, i) == [s[j..e]] + Words(s, e + 1)
  {
    forall k | j <= k < e ensures s[k] != ' ' {
      assert s[k] == s[j..e][k - j];
    }
    SkipIs(s, i, j);
    FindIs(s, j, e, ' ');
  }

  /** A quoted word after spaces. */
  lemma QuotedWord(s: seq<char>, i: nat, j: nat, e: nat)
    requires i <= j < e < |s| && (forall k :: i <= k < j ==> s[k] == ' ')
    requires s[j] == '\'' && '\'' !in s[j + 1..e] && s[e] == '\''
    ensures Words(s, i) == [s[j + 1..e]] + Words(s, e + 1)
  {
    forall k | j + 1 <= k < e ensures s[k] != '\'' {
      assert s[k] == s[j + 1..e][k - j - 1];
    }
    SkipIs(s, i, j);
    FindIs(s, j + 1, e, '\'');
  }

  /** Where the parts of a written word are. */
  lemma Layout(s: seq<char>, i: nat, x: Item)
    requires i + |Written(x)| < |s| && s[i..i + |Written(x)|] == Written(x)
    ensures forall k :: i <= k < i + x.gap ==> s[k] == ' '
    ensures !x.quoted ==> s[i + x.gap..i + |Written(x)|] == x.word
    ensures x.quoted ==> s[i + x.gap] == '\'' && s[i + |Written(x)| - 1] == '\''
    ensures x.quoted ==> s[i + x.gap + 1..i + |Written(x)| - 1] == x.word
  {
    var w, e, j := Written(x), i + |Written(x)|, i + x.gap;
    forall k | i <= k < j ensures s[k] == ' ' {
      assert s[k] == s[i..e][k - i];
    }
    if x.quoted {
      assert s[j] == s[i..e][x.gap] && s[e - 1] == s[i..e][e - 1 - i];
      Slice(s, i, w, x.gap + 1, |w| - 1);
      assert w[x.gap + 1..|w| - 1] == x.word;
    } else {
      Slice(s, i, w, x.gap, |w|);
      assert w[x.gap..|w|] == x.word;
    }
  }

  lemma Slice(s: seq<char>, i: nat, w: seq<char>, from: nat, end: nat)
    requires i + |w| <= |s| && s[i..i + |w|] == w && from <= end <= |w|
    ensures s[i + from..i + end] == w[from..end]
  {
    var u, v := s[i + from..i + end], w[from..end];
    forall k | 0 <= k < |u| ensures u[k] == v[k] {
      assert u[k] == s[i..i + |w|][from + k];
    }
  }

  /** One written word, followed by a space unless it closes with a quote. */
  lemma OneWord(s: seq<char>, i: nat, x: Item)
    requires Writable(x) && i + |Written(x)| < |s| && s[i..i + |Written(x)|] == Written(x)
    requires x.quoted || s[i + |Written(x)|] == ' '
    ensures Words(s, i) == [x.word] + Words(s, i + |Written(x)|)
  {
    hide Words;
    var e, j := i + |Written(x)|, i + x.gap;
    Layout(s, i, x);
    if x.quoted {
      QuotedWord(s, i, j, e - 1);
    } else {
      assert s[j] == s[j..e][0];
      BareWord(s, i, j, e);
      LeadingSpace(s, e);
    }
  }

  /** A space in front of what is parsed makes no difference. */
  lemma LeadingSpace(s: seq<char>, i: nat)
    requires i < |s| && s[i] == ' '
    ensures Words(s, i) == Words(s, i + 1)
  {
  }

  /** The words of a rendered list, then those of whatever follows. */
  lemma {:induction false} WordsOfRender(s: seq<char>, i: nat, xs: seq<Item>)
    requires AllWritable(xs) && i + |Render(xs)| < |s| && s[i..i + |Render(xs)|] == Render(xs)
    requires s[i + |Render(xs)|] == ' '
    ensures Words(s, i) == TheWords(xs) + Words(s, i + |Render(xs)|)
    decreases |xs|
  {
    hide Words; hide Written; hide Writable;
    if xs != [] {
      var x, more := xs[0], xs[1..];
      var m := i + |Written(x)|;
      Split(s, i, Written(x), Render(more));
      BareIsFollowed(xs);
      if more != [] && !x.quoted {
        NextIsSpace(s, m, more);
      }
      OneWord(s, i, x);
      MoreWritable(xs);
      WordsOfRender(s, m, more);
      assert TheWords(xs) == [x.word] + TheWords(more);
    }
  }

  lemma MoreWritable(xs: seq<Item>)
    requires AllWritable(xs) && xs != []
    ensures AllWritable(xs[1..])
  {
    var more := xs[1..];
    forall k | 0 <= k < |more| ensures Writable(more[k]) && (k > 0 && !more[k - 1].quoted ==> more[k].gap > 0) {
      assert more[k] == xs[k + 1];
    }
  }

  lemma BareIsFollowed(xs: seq<Item>)
    requires AllWritable(xs) && xs != []
    ensures Writable(xs[0]) && (|xs| > 1 && !xs[0].quoted ==> xs[1..][0].gap > 0)
  {
  }

  lemma Split(s: seq<char>, i: nat, u: seq<char>, v: seq<char>)
    requires i + |u + v| <= |s| && s[i..i + |u + v|] == u + v
    ensures s[i..i + |u|] == u && s[i + |u|..i + |u| + |v|] == v
  {
    assert s[i..i + |u|] == s[i..i + |u + v|][..|u|];
    assert s[i + |u|..i + |u| + |v|] == s[i..i + |u + v|][|u|..];
  }

  lemma NextIsSpace(s: seq<char>, m: nat, more: seq<Item>)
    requires more != [] && more[0].gap > 0 && m + |Render(more)| <= |s| && s[m..m + |Render(more)|] == Render(more)
    ensures m < |s| && s[m] == ' '
  {
    assert s[m] == s[m..m + |Render(more)|][0] == Written(more[0])[0];
  }

  /** Nothing but spaces. */
  lemma {:induction false} NoWords(s: seq<char>, i: nat)
    requires i <= |s| && forall k :: i <= k < |s| ==> s[k] == ' '
    ensures Words(s, i) == []
    decreases |s| - i
  {
    if i < |s| {
      LeadingSpace(s, i);
      NoWords(s, i + 1);
    }
  }

  /** The line made of some words, `tail` spaces and a newline. */
  function Line(xs: seq<Item>, tail: nat): seq<char> {
    Render(xs) + Spaces(tail) + ['\n']
  }

  lemma WordsOfLine(xs: seq<Item>, tail: nat)
    requires AllWritable(xs)
    ensures Words(Text(Line(xs, tail)), 0) == TheWords(xs)
  {
    hide Render; hide AllWritable; hide Words;
    var s := Text(Line(xs, tail));
    var r := |Render(xs)|;
    assert s[0..r] == Render(xs);
    WordsOfRender(s, 0, xs);
    NoWords(s, r);
    assert TheWords(xs) + [] == TheWords(xs);
  }

  /** Every word takes two characters of the line at least, so there are no more than 511. */
  lemma {:induction false} WordsAreFew(s: seq<char>, i: nat)
    requires i <= |s| && (i < |s| ==> s[|s| - 1] == ' ')
    ensures 2 * |Words(s, i)| <= |s| - i
    decreases |s| - i
  {
    hide Words;
    var j := SkipTo(s, i);
    var d := WordEnd(s, j);
    if d >= 0 {
      WordsStep(s, i, []);
      WordsAreFew(s, d + 1);
    } else {
      WordsDone(s, i, []);
    }
  }

  function ShortWords(n: nat): seq<Item> {
    if n == 0 then [] else [Item(1, false, ['a'])] + ShortWords(n - 1)
  }

  lemma {:induction false} ShortWordsRender(n: nat)
    ensures |ShortWords(n)| == n && AllWritable(ShortWords(n)) && (n > 0 ==> ShortWords(n)[0].gap > 0)
    ensures |Render(ShortWords(n))| == 2 * n && NUL !in Render(ShortWords(n))
  {
    hide AllWritable; hide Render;
    if n > 0 {
      ShortWordsRender(n - 1);
      ShortWord();
      OneMoreItem(Item(1, false, ['a']), ShortWords(n - 1));
    } else {
      NoneWritten();
    }
  }

  lemma ShortWord()
    ensures Writable(Item(1, false, ['a'])) && Written(Item(1, false, ['a'])) == [' ', 'a']
  {
  }

  /** So many words do occur: a line of 257 characters has the 128 that are too many for argv. */
  lemma LongLine(n: nat)
    ensures var cmdline := Line(ShortWords(n), 0);
            |cmdline| == 2 * n + 1 && NUL !in cmdline && |Words(Text(cmdline), 0)| == n
  {
    ShortWordsRender(n);
    WordsOfLine(ShortWords(n), 0);
  }

  /** Parsing gives back the words that were written, except that a last word starting with & is taken
      as the background mark. */
  lemma RoundTrip(xs: seq<Item>, tail: nat)
    requires AllWritable(xs)
    ensures var ws, n := TheWords(xs), |xs|;
            Parse(Line(xs, tail)) ==
              if n == 0 then ([], true)
              else if ws[n - 1] != [] && ws[n - 1][0] == '&' then (ws[..n - 1], true)
              else (ws, false)
  {
    WordsOfLine(xs, tail);
  }

  /** The last character of the line is never looked at. */
  lemma LastIgnored(u: seq<char>, c: char, d: char)
    ensures Parse(u + [c]) == Parse(u + [d])
  {
    assert Text(u + [c]) == Text(u + [d]);
  }

  /** Nothing but spaces, or a quote that is never closed behind them. */
  ghost predicate Ends(tail: seq<char>) {
    var n := SkipTo(tail, 0);
    n < |tail| ==> tail[n] == '\'' && '\'' !in tail[n + 1..]
  }

  /** Every line is a list of written words and such an end, and its words are those: so parsing is undone by
      rendering on all lines, not only on those that were rendered. */
  lemma {:induction false} EveryLine(s: seq<char>, i: nat) returns (xs: seq<Item>, tail: seq<char>)
    requires i <= |s| && (i < |s| ==> s[|s| - 1] == ' ')
    ensures AllWritable(xs) && Ends(tail) && s[i..] == Render(xs) + tail && Words(s, i) == TheWords(xs)
    ensures i < |s| && s[i] == ' ' && xs != [] ==> xs[0].gap > 0
    decreases |s| - i
  {
    hide Render; hide Words; hide AllWritable; hide Ends; hide TheWords; hide SkipTo; hide WordEnd; hide WordStart;
    hide Written; hide Writable; hide IsQuote;
    var j := SkipTo(s, i);
    var d := WordEnd(s, j);
    if d < 0 {
      xs, tail := [], s[i..];
      WordsDone(s, i, []);
      EndsThere(s, i);
      NoneWritten();
      assert Render(xs) + tail == tail;
    } else {
      FirstWord(s, i);
      var x := Item(j - i, IsQuote(s, j), s[WordStart(s, j)..d]);
      var from := if IsQuote(s, j) then d + 1 else d;
      FirstItem(s, i, j, d, x, from);
      var more;
      more, tail := EveryLine(s, from);
      xs := [x] + more;
      OneMoreItem(x, more);
      assert Written(x) + Render(more) + tail == Written(x) + (Render(more) + tail);
    }
  }

  lemma FirstWord(s: seq<char>, i: nat)
    requires i <= |s| && WordEnd(s, SkipTo(s, i)) >= 0
    ensures var j, d := SkipTo(s, i), WordEnd(s, SkipTo(s, i)); Words(s, i) == [s[WordStart(s, j)..d]] + Words(s, d + 1)
  {
  }

  lemma NoneWritten()
    ensures AllWritable([]) && Render([]) == [] && TheWords([]) == []
  {
  }

  lemma OneMoreItem(x: Item, more: seq<Item>)
    requires Writable(x) && AllWritable(more) && (more != [] && !x.quoted ==> more[0].gap > 0)
    ensures AllWritable([x] + more) && Render([x] + more) == Written(x) + Render(more)
    ensures TheWords([x] + more) == [x.word] + TheWords(more)
  {
    hide Writable; hide Written;
    var xs := [x] + more;
    assert xs[1..] == more;
    assert forall k :: 1 <= k < |xs| ==> xs[k] == more[k - 1];
  }

  lemma EndsThere(s: seq<char>, i: nat)
    requires i <= |s| && (i < |s| ==> s[|s| - 1] == ' ') && WordEnd(s, SkipTo(s, i)) < 0
    ensures Ends(s[i..])
  {
    hide SkipTo; hide Find;
    var tail, j := s[i..], SkipTo(s, i);
    if j < |s| {
      forall k | 0 <= k < j - i ensures tail[k] == ' ' {
        assert tail[k] == s[i + k];
      }
      SkipIs(tail, 0, j - i);
      assert tail[j - i + 1..] == s[j + 1..];
    } else {
      forall k | 0 <= k < |tail| ensures tail[k] == ' ' {
        assert tail[k] == s[i + k];
      }
    }
  }

  lemma Delimited(s: seq<char>, j: nat)
    requires j <= |s| && (j < |s| ==> s[j] != ' ') && WordEnd(s, j) >= 0
    ensures var d := WordEnd(s, j); j < d < |s| && s[d] == if IsQuote(s, j) then '\'' else ' '
    ensures WordStart(s, j) == if IsQuote(s, j) then j + 1 else j
  {
  }

  /** The first word, as it was written: j is where it starts, quote included, and d its delimiter. */
  lemma FirstItem(s: seq<char>, i: nat, j: nat, d: int, x: Item, from: nat)
    requires i <= j <= |s| && (forall k :: i <= k < j ==> s[k] == ' ') && (j < |s| ==> s[j] != ' ')
    requires d == WordEnd(s, j) >= 0 && x.gap == j - i && x.quoted == IsQuote(s, j) && x.word == s[WordStart(s, j)..d]
    requires from == if IsQuote(s, j) then d + 1 else d
    ensures i < from <= |s| && Writable(x) && s[i..] == Written(x) + s[from..]
    ensures Words(s, d + 1) == Words(s, from)
    ensures !x.quoted ==> from < |s| && s[from] == ' '
    ensures s[i] == ' ' ==> x.gap > 0
  {
    hide Words; hide Writable; hide Written; hide WordEnd; hide WordStart;
    Delimited(s, j);
    ItemIsWritable(s, j, d, x);
    if !IsQuote(s, j) {
      LeadingSpace(s, d);
    }
    CutItem(s, i, j, d, x, from);
  }

  lemma CutItem(s: seq<char>, i: nat, j: nat, d: nat, x: Item, from: nat)
    requires i <= j < d < |s| && (forall k :: i <= k < j ==> s[k] == ' ')
    requires x.gap == j - i && from == if x.quoted then d + 1 else d
    requires x.quoted ==> s[j] == '\'' && s[d] == '\'' && x.word == s[j + 1..d]
    requires !x.quoted ==> x.word == s[j..d]
    ensures s[i..] == Written(x) + s[from..]
  {
    if x.quoted {
      CutQuoted(s, i, j, d, x);
    } else {
      CutBare(s, i, j, d, x);
    }
  }

  lemma ItemIsWritable(s: seq<char>, j: nat, d: int, x: Item)
    requires j <= |s| && d == WordEnd(s, j) >= 0 && (j < |s| ==> s[j] != ' ')
    requires x.quoted == IsQuote(s, j) && x.word == s[WordStart(s, j)..d]
    ensures Writable(x)
  {
    forall k | 0 <= k < |x.word| ensures x.word[k] == s[WordStart(s, j) + k] {
    }
  }

  lemma CutQuoted(s: seq<char>, i: nat, j: nat, d: nat, x: Item)
    requires i <= j < d < |s| && (forall k :: i <= k < j ==> s[k] == ' ') && s[j] == '\'' && s[d] == '\''
    requires x == Item(j - i, true, s[j + 1..d])
    ensures s[i..] == Written(x) + s[d + 1..]
  {
    assert s[i..j] == Spaces(x.gap);
    assert s[i..] == s[i..j] + s[j..];
    assert s[j..] == ['\''] + s[j + 1..d] + ['\''] + s[d + 1..];
  }

  lemma CutBare(s: seq<char>, i: nat, j: nat, d: nat, x: Item)
    requires i <= j <= d < |s| && (forall k :: i <= k < j ==> s[k] == ' ')
    requires x == Item(j - i, false, s[j..d])
    ensures s[i..] == Written(x) + s[d..]
  {
    assert s[i..j] == Spaces(x.gap);
    assert s[i..] == s[i..j] + s[j..d] + s[d..];
  }

  /** A quote that is never closed swallows the rest of the line. */
  lemma OpenQuote(xs: seq<Item>, rest: seq<char>)
    requires AllWritable(xs) && '\'' !in rest
    ensures Words(Text(Render(xs) + [' ', '\''] + rest + ['\n']), 0) == TheWords(xs)
  {
    hide Render; hide AllWritable; hide Words; hide Text; hide TheWords;
    var s, r := Text(Render(xs) + [' ', '\''] + rest + ['\n']), |Render(xs)|;
    assert s == Render(xs) + ([' ', '\''] + rest + [' ']) by {
      TextOf(Render(xs) + [' ', '\''] + rest);
    }
    assert s[0..r] == Render(xs);
    WordsOfRender(s, 0, xs);
    assert s[r..] == [' ', '\''] + rest + [' '];
    NeverClosed(s, r, rest);
    assert TheWords(xs) + [] == TheWords(xs);
  }

  lemma TextOf(u: seq<char>)
    ensures Text(u + ['\n']) == u + [' ']
  {
  }

  lemma NeverClosed(s: seq<char>, r: nat, rest: seq<char>)
    requires '\'' !in rest && r <= |s| && s[r..] == [' ', '\''] + rest + [' ']
    ensures Words(s, r) == []
  {
    assert |s| == r + |rest| + 3;
    forall k | r <= k < |s| ensures s[k] == ([' ', '\''] + rest + [' '])[k - r] {
      assert s[k] == s[r..][k - r];
    }
    SkipIs(s, r, r + 1);
    forall k | r + 2 <= k < |s| ensures s[k] != '\'' {
      if k < |s| - 1 {
        assert s[k] == rest[k - r - 2];
      }
    }
  }

  /** How a parsed word is written again. */
  function Rewrite(w: seq<char>): Item {
    Item(1, w == [] || ' ' in w, w)
  }

  lemma WordIsWritable(s: seq<char>, i: nat)
    requires i <= |s| && WordEnd(s, SkipTo(s, i)) >= 0
    ensures Writable(Rewrite(s[WordStart(s, SkipTo(s, i))..WordEnd(s, SkipTo(s, i))]))
  {
  }

  lemma {:induction false} WordsAreWritable(s: seq<char>, i: nat)
    requires i <= |s|
    ensures forall k :: 0 <= k < |Words(s, i)| ==> Writable(Rewrite(Words(s, i)[k]))
    decreases |s| - i
  {
    var d := WordEnd(s, SkipTo(s, i));
    if d >= 0 {
      WordIsWritable(s, i);
      WordsAreWritable(s, d + 1);
    }
  }

  /** Every list of words the parser can give, it gives again for those words written afresh. */
  lemma Reparse(s: seq<char>)
    ensures var ws := Words(s, 0);
            Words(Text(Line(seq(|ws|, k requires 0 <= k < |ws| => Rewrite(ws[k])), 0)), 0) == ws
  {
    var ws := Words(s, 0);
    var xs := seq(|ws|, k requires 0 <= k < |ws| => Rewrite(ws[k]));
    WordsAreWritable(s, 0);
    assert AllWritable(xs) by {
      forall k | 0 <= k < |xs| ensures Writable(xs[k]) && xs[k].gap > 0 {
        assert xs[k] == Rewrite(ws[k]);
      }
    }
    WordsOfLine(xs, 0);
    assert TheWords(xs) == ws;
  }
}
