/** Buffered reading: whatever pieces read() delivers, the caller sees the stream. */
module Rio {
  import opened Numbers

  const BUF_SIZE := 8192
  const NEWLINE := '\n'
  const NUL := '\0'

  function Max0(a: int): int {
    if a > 0 then a else 0
  }

  /** How the next call of read() goes: interrupted by a signal, failing otherwise, or delivering up to
      n bytes (at least one, unless the stream has ended). */
  datatype Turn = Interrupted | Failing | AtMost(n: nat)

  /** No error other than interruption lies ahead. */
  predicate Sound(schedule: seq<Turn>) {
    forall k :: 0 <= k < |schedule| ==> !schedule[k].Failing?
  }

  /** `after` is what is left of `before`.  Of the turns used up the last is an error exactly if `failed`,
      and no other is. */
  ghost predicate Used(before: seq<Turn>, after: seq<Turn>, failed: bool) {
    && |after| <= |before| && after == before[|before| - |after|..]
    && var n := |before| - |after|;
       if failed then n > 0 && before[n - 1].Failing? && Sound(before[..n - 1]) else Sound(before[..n])
  }

  lemma UsedNone(a: seq<Turn>)
    ensures Used(a, a, false)
  {
  }

  lemma UsedOne(a: seq<Turn>, failed: bool)
    requires a != [] && failed == a[0].Failing?
    ensures Used(a, a[1..], failed)
  {
  }

  lemma UsedThen(a: seq<Turn>, b: seq<Turn>, c: seq<Turn>, failed: bool)
    requires Used(a, b, false) && Used(b, c, failed)
    ensures Used(a, c, failed)
  {
    var m, n := |a| - |b|, |b| - |c|;
    assert c == a[m + n..];
    forall k | 0 <= k < m + n ensures a[k] == if k < m then a[..m][k] else b[k - m] {
    }
    forall k | 0 <= k < if failed then m + n - 1 else m + n ensures !a[k].Failing? {
      if k < m {
        assert a[..m][k] == a[k];
      } else {
        assert b[..if failed then n - 1 else n][k - m] == a[k];
      }
    }
  }

  lemma UsedSound(a: seq<Turn>, b: seq<Turn>, failed: bool)
    requires Sound(a) && Used(a, b, failed)
    ensures !failed && Sound(b)
  {
  }

  datatype Errno = Eintr | Other

  /** An open file: the bytes to come, how far it has been read, and how the next reads will go. */
  class Descriptor {
    const stream: seq<char>
    var pos: nat
    var schedule: seq<Turn>

    constructor (stream: seq<char>, schedule: seq<Turn>)
      ensures this.stream == stream && pos == 0 && this.schedule == schedule
    {
      this.stream := stream;
      this.schedule := schedule;
      pos := 0;
    }

    /** read() into a buffer of `size` bytes: 0 only at the end of the stream. */
    method Read(buf: array<char>, size: nat) returns (r: int, errno: Errno)
      requires pos <= |stream| && 0 < size <= buf.Length
      modifies this, buf
      ensures -1 <= r <= size && pos <= |stream|
      ensures r == -1 ==> pos == old(pos) && |schedule| < |old(schedule)|
      ensures Used(old(schedule), schedule, r == -1 && errno == Other)
      ensures r == 0 ==> pos == old(pos) == |stream|
      ensures r > 0 ==> pos == old(pos) + r && buf[..r] == stream[old(pos)..pos]
    {
      errno := Eintr;
      var most := size;
      if schedule == [] {
        UsedNone(schedule);
      } else {
        var turn := schedule[0];
        UsedOne(schedule, turn.Failing?);
        schedule := schedule[1..];
        match turn {
          case Interrupted => return -1, Eintr;
          case Failing => return -1, Other;
          case AtMost(n) => most := if n == 0 then 1 else Min(n, size);
        }
      }
      r := Min(most, |stream| - pos);
      forall k | 0 <= k < r {
        buf[k] := stream[pos + k];
      }
      pos := pos + r;
    }
  }

  // ---------------------------------------------------------------- what the calls mean

  /** Length of the next line: through the first newline, at most k bytes, at most to the end. */
  function LineLength(s: seq<char>, i: nat, k: nat): (n: nat)
    requires i <= |s|
    ensures n <= k && i + n <= |s|
    decreases k
  {
    if k == 0 || i == |s| then 0
    else if s[i] == NEWLINE then 1
    else 1 + LineLength(s, i + 1, k - 1)
  }

  /** That is the one length that has no newline before its last byte and stops for a reason. */
  ghost predicate IsLine(s: seq<char>, i: nat, k: nat, n: nat) {
    && n <= k && i + n <= |s|
    && (forall j :: i <= j < i + n - 1 ==> s[j] != '\n')
    && (n == k || i + n == |s| || (n > 0 && s[i + n - 1] == '\n'))
  }

  lemma {:induction false} LineLengthUnique(s: seq<char>, i: nat, k: nat, n: nat)
    requires i <= |s|
    ensures IsLine(s, i, k, n) <==> n == LineLength(s, i, k)
    decreases k
  {
    if k > 0 && i < |s| && s[i] != NEWLINE {
      LineLengthUnique(s, i + 1, k - 1, if n > 0 then n - 1 else 0);
    }
  }

  /** The next byte of a line: a newline ends it, anything else goes on. */
  lemma LineStep(s: seq<char>, p: nat, i: nat, k: nat, n: nat)
    requires p <= i < |s| && i - p == n < k
    requires LineLength(s, p, k) == n + LineLength(s, i, k - n)
    ensures s[i] == NEWLINE ==> LineLength(s, p, k) == n + 1
    ensures s[i] != NEWLINE ==> LineLength(s, p, k) == n + 1 + LineLength(s, i + 1, k - n - 1)
  {
  }

  lemma LineStops(s: seq<char>, i: nat, k: nat)
    requires i <= |s| && (k == 0 || i == |s|)
    ensures LineLength(s, i, k) == 0
  {
  }

  datatype Op = ReadN(n: nat) | ReadLine(maxlen: nat)

  /** How many bytes an operation takes from position i of the stream on. */
  function Taken(s: seq<char>, i: nat, op: Op): (n: nat)
    requires i <= |s|
    ensures i + n <= |s|
  {
    match op
    case ReadN(n) => Min(n, |s| - i)
    case ReadLine(maxlen) => LineLength(s, i, Max0(maxlen - 1))
  }

  /** Position after some operations, and what each delivers; the stream alone decides. */
  function Position(s: seq<char>, i: nat, ops: seq<Op>): (j: nat)
    requires i <= |s|
    ensures i <= j <= |s|
    decreases |ops|
  {
    if ops == [] then i
    else
      var j := Position(s, i, ops[..|ops| - 1]);
      j + Taken(s, j, ops[|ops| - 1])
  }

  function Results(s: seq<char>, i: nat, ops: seq<Op>): (r: seq<seq<char>>)
    requires i <= |s|
    decreases |ops|
  {
    if ops == [] then []
    else
      var j := Position(s, i, ops[..|ops| - 1]);
      Results(s, i, ops[..|ops| - 1]) + [s[j..j + Taken(s, j, ops[|ops| - 1])]]
  }

  function Joined(rs: seq<seq<char>>): seq<char> {
    if rs == [] then [] else Joined(rs[..|rs| - 1]) + rs[|rs| - 1]
  }

  /** What all operations deliver together is a piece of the stream without gaps. */
  lemma {:induction false} NothingLost(s: seq<char>, i: nat, ops: seq<Op>)
    requires i <= |s|
    ensures Joined(Results(s, i, ops)) == s[i..Position(s, i, ops)]
    decreases |ops|
  {
    if ops != [] {
      var n := |ops| - 1;
      NothingLost(s, i, ops[..n]);
      var j, k := Position(s, i, ops[..n]), Position(s, i, ops);
      assert Results(s, i, ops)[..|Results(s, i, ops)| - 1] == Results(s, i, ops[..n]);
      assert s[i..j] + s[j..k] == s[i..k];
    }
  }

  // ---------------------------------------------------------------- the code

  /** The n bytes at b[p] are the n bytes at s[q]. */
  ghost predicate Same(b: seq<char>, p: int, s: seq<char>, q: int, n: int) {
    0 <= p && 0 <= q && 0 <= n && p + n <= |b| && q + n <= |s| && b[p..p + n] == s[q..q + n]
  }

  lemma SameSplit(b: seq<char>, p: int, s: seq<char>, q: int, n: int, c: int)
    requires Same(b, p, s, q, n) && 0 <= c <= n
    ensures Same(b, p, s, q, c) && Same(b, p + c, s, q + c, n - c)
  {
    assert b[p..p + c] == b[p..p + n][..c] && s[q..q + c] == s[q..q + n][..c];
    assert b[p + c..p + n] == b[p..p + n][c..] && s[q + c..q + n] == s[q..q + n][c..];
  }

  lemma SameJoin(b: seq<char>, p: int, s: seq<char>, q: int, m: int, n: int)
    requires Same(b, p, s, q, m) && Same(b, p + m, s, q + m, n)
    ensures Same(b, p, s, q, m + n)
  {
    assert b[p..p + m + n] == b[p..p + m] + b[p + m..p + m + n];
    assert s[q..q + m + n] == s[q..q + m] + s[q + m..q + m + n];
  }

  lemma SameCopied(a: seq<char>, o: int, b: seq<char>, p: int, s: seq<char>, q: int, n: int)
    requires Same(a, o, b, p, n) && Same(b, p, s, q, n)
    ensures Same(a, o, s, q, n)
  {
  }

  lemma SameNone(b: seq<char>, p: int, s: seq<char>, q: int)
    requires 0 <= p <= |b| && 0 <= q <= |s|
    ensures Same(b, p, s, q, 0)
  {
  }

  /** Writing behind a piece does not change it. */
  lemma SameKept(b: seq<char>, b': seq<char>, s: seq<char>, q: int, n: int, m: int)
    requires Same(b, 0, s, q, n) && n <= m <= |b| && m <= |b'| && b[..m] == b'[..m]
    ensures Same(b', 0, s, q, n)
  {
    assert b[0..n] == b[..m][..n] && b'[0..n] == b'[..m][..n];
  }

  lemma SameOne(b: seq<char>, p: int, s: seq<char>, q: int)
    ensures Same(b, p, s, q, 1) <==> 0 <= p < |b| && 0 <= q < |s| && b[p] == s[q]
  {
    if Same(b, p, s, q, 1) {
      assert b[p] == b[p..p + 1][0] && s[q] == s[q..q + 1][0];
    }
  }

  lemma SameIs(b: seq<char>, s: seq<char>, q: int, n: int)
    requires Same(b, 0, s, q, n)
    ensures b[..n] == s[q..q + n]
  {
  }

  method MemCpy(dst: array<char>, off: nat, src: array<char>, p: nat, n: nat)
    requires dst != src && off + n <= dst.Length && p + n <= src.Length
    modifies dst
    ensures Same(dst[..], off, src[..], p, n)
    ensures dst[..off] == old(dst[..off]) && dst[off + n..] == old(dst[off + n..])
  {
    forall k | 0 <= k < n {
      dst[off + k] := src[p + k];
    }
    assert dst[off..off + n] == src[p..p + n];
  }

  /** *bufp++ = c */
  method Append(usrbuf: array<char>, m: nat, c: char, ghost s: seq<char>, ghost p: nat)
    requires m < usrbuf.Length && Same(usrbuf[..], 0, s, p, m) && p + m < |s| && s[p + m] == c
    modifies usrbuf
    ensures Same(usrbuf[..], 0, s, p, m + 1)
  {
    hide Same;
    ghost var was := usrbuf[..];
    usrbuf[m] := c;
    SameKept(was, usrbuf[..], s, p, m, m);
    SameOne(usrbuf[..], m, s, p + m);
    SameJoin(usrbuf[..], 0, s, p, m, 1);
  }

  /** *bufp = 0 */
  method Close(usrbuf: array<char>, m: nat, ghost s: seq<char>, ghost p: nat)
    requires m < usrbuf.Length && Same(usrbuf[..], 0, s, p, m)
    modifies usrbuf
    ensures Same(usrbuf[..], 0, s, p, m) && usrbuf[m] == NUL
  {
    ghost var was := usrbuf[..];
    usrbuf[m] := NUL;
    SameKept(was, usrbuf[..], s, p, m, m);
  }

  class Reader {
    const fd: Descriptor
    const buf: array<char>
    var cnt: int
    var bufptr: nat

    ghost predicate Valid()
      reads this, fd, buf
    {
      && buf.Length == BUF_SIZE && cnt <= BUF_SIZE && fd.pos <= |fd.stream|
      && (cnt > 0 ==> Same(buf[..], bufptr, fd.stream, fd.pos - cnt, cnt) && cnt <= fd.pos)
    }

    /** How much of the stream has been handed to the caller. */
    ghost function At(): (p: nat)
      requires Valid()
      reads this, fd, buf
      ensures p <= |fd.stream|
    {
      fd.pos - Max0(cnt)
    }

    /** What the buffer still holds. */
    ghost function Unread(): seq<char>
      requires Valid()
      reads this, fd, buf
    {
      if cnt > 0 then buf[..][bufptr..bufptr + cnt] else []
    }

    /** rio_readinitb */
    constructor (fd: Descriptor)
      requires fd.pos <= |fd.stream|
      ensures Valid() && this.fd == fd && At() == fd.pos && fresh(buf)
    {
      this.fd := fd;
      buf := new char[BUF_SIZE];
      cnt := 0;
      bufptr := 0;
    }

    /** The refill loop: on success something is buffered. */
    method Refill() returns (r: int)
      requires Valid()
      modifies this, fd, buf
      ensures Valid() && At() == old(At()) && -1 <= r <= 1
      ensures Used(old(fd.schedule), fd.schedule, r == -1)
      ensures r == 0 ==> At() == |fd.stream| && cnt == 0
      ensures r == 1 ==> cnt > 0
      ensures old(cnt) > 0 ==> r == 1 && cnt == old(cnt) && fd.pos == old(fd.pos) && fd.schedule == old(fd.schedule)
    {
      hide Used; hide Sound;
      UsedNone(fd.schedule);
      while cnt <= 0
        invariant Valid() && At() == old(At())
        invariant Used(old(fd.schedule), fd.schedule, false)
        invariant old(cnt) > 0 ==> cnt == old(cnt) && fd.pos == old(fd.pos) && fd.schedule == old(fd.schedule)
        decreases cnt <= 0, |fd.schedule|
      {
        ghost var ahead := fd.schedule;
        var errno;
        cnt, errno := fd.Read(buf, BUF_SIZE);
        UsedThen(old(fd.schedule), ahead, fd.schedule, cnt < 0 && errno == Other);
        if cnt < 0 {
          if errno != Eintr {
            return -1;
          }
        } else if cnt == 0 {
          return 0;
        } else {
          bufptr := 0;
          assert buf[..][0..0 + cnt] == buf[..cnt];
        }
      }
      return 1;
    }

    /** rio_read: -1 on an error, 0 at the end of the stream, else min(n, bytes buffered); what is buffered is used up
        before more is read. */
    method Read(usrbuf: array<char>, bufp: nat, n: nat) returns (r: int)
      requires Valid() && usrbuf != buf && bufp + n <= usrbuf.Length
      modifies this, fd, buf, usrbuf
      ensures Valid() && -1 <= r <= n
      ensures r == -1 ==> At() == old(At())
      ensures Used(old(fd.schedule), fd.schedule, r == -1)
      ensures r == 0 && n > 0 ==> At() == |fd.stream|
      ensures 0 <= r < n ==> cnt <= 0
      ensures old(cnt) > 0 ==> fd.pos == old(fd.pos) && fd.schedule == old(fd.schedule)
      ensures r >= 0 ==> At() == old(At()) + r && Same(usrbuf[..], bufp, fd.stream, old(At()), r)
      ensures usrbuf[..bufp] == old(usrbuf[..bufp])
      ensures usrbuf[bufp + Max0(r)..] == old(usrbuf[bufp + Max0(r)..])
    {
      hide Same; hide Sound; hide Used;
      var filled := Refill();
      if filled <= 0 {
        SameNone(usrbuf[..], bufp, fd.stream, At());
        return filled;
      }
      var c := n;
      if cnt < n {
        c := cnt;
      }
      Deliver(usrbuf, bufp, c);
      return c;
    }

    /** Copies c bytes out of the buffer. */
    method Deliver(usrbuf: array<char>, bufp: nat, c: nat)
      requires Valid() && usrbuf != buf && 0 < cnt && c <= cnt && bufp + c <= usrbuf.Length
      modifies this`bufptr, this`cnt, usrbuf
      ensures Valid() && cnt == old(cnt) - c && At() == old(At()) + c
      ensures Same(usrbuf[..], bufp, fd.stream, old(At()), c)
      ensures usrbuf[..bufp] == old(usrbuf[..bufp]) && usrbuf[bufp + c..] == old(usrbuf[bufp + c..])
    {
      hide Same;
      InBuffer();
      MemCpy(usrbuf, bufp, buf, bufptr, c);
      SameSplit(buf[..], bufptr, fd.stream, fd.pos - cnt, cnt, c);
      SameCopied(usrbuf[..], bufp, buf[..], bufptr, fd.stream, fd.pos - cnt, c);
      bufptr := bufptr + c;
      cnt := cnt - c;
    }

    lemma InBuffer()
      requires Valid() && cnt > 0
      ensures bufptr + cnt <= buf.Length
    {
    }

    /** rio_readnb: reads n bytes unless the stream ends first. */
    method ReadNb(usrbuf: array<char>, n: nat) returns (r: int)
      requires Valid() && usrbuf != buf && n <= usrbuf.Length
      modifies this, fd, buf, usrbuf
      ensures Valid() && r >= -1
      ensures Used(old(fd.schedule), fd.schedule, r == -1)
      ensures r >= 0 ==> r == Taken(fd.stream, old(At()), ReadN(n)) && At() == old(At()) + r
      ensures r >= 0 ==> r <= n && (r < n ==> At() == |fd.stream|)
      ensures r >= 0 ==> usrbuf[r..] == old(usrbuf[r..])
      ensures 0 <= At() - old(At()) <= n && Same(usrbuf[..], 0, fd.stream, old(At()), At() - old(At()))
    {
      hide Same; hide Sound; hide Used;
      var nleft := n;
      var bufp := 0;
      ghost var p := At();
      SameNone(usrbuf[..], 0, fd.stream, p);
      UsedNone(fd.schedule);
      while nleft > 0
        invariant Valid() && 0 <= nleft <= n && bufp == n - nleft
        invariant Used(old(fd.schedule), fd.schedule, false)
        invariant At() == p + bufp && Same(usrbuf[..], 0, fd.stream, p, bufp)
        invariant usrbuf[bufp..] == old(usrbuf[bufp..])
      {
        ghost var was, ahead := usrbuf[..], fd.schedule;
        var nread := Read(usrbuf, bufp, nleft);
        UsedThen(old(fd.schedule), ahead, fd.schedule, nread == -1);
        SameKept(was, usrbuf[..], fd.stream, p, bufp, bufp);
        if nread < 0 {
          return -1;
        } else if nread == 0 {
          break;
        }
        SameJoin(usrbuf[..], 0, fd.stream, p, bufp, nread);
        assert was[bufp + nread..] == was[bufp..][nread..];
        assert old(usrbuf[bufp + nread..]) == old(usrbuf[bufp..])[nread..];
        nleft := nleft - nread;
        bufp := bufp + nread;
      }
      return n - nleft;
    }

    /** rio_read into a single character. */
    method ReadChar() returns (rc: int, c: char)
      requires Valid()
      modifies this, fd, buf
      ensures Valid() && -1 <= rc <= 1
      ensures rc == -1 ==> At() == old(At())
      ensures Used(old(fd.schedule), fd.schedule, rc == -1)
      ensures rc == 0 ==> At() == old(At()) == |fd.stream|
      ensures rc == 1 ==> At() == old(At()) + 1 && c == fd.stream[old(At())]
    {
      hide Same; hide Sound; hide Used;
      var cell := new char[1];
      rc := Read(cell, 0, 1);
      c := cell[0];
      SameOne(cell[..], 0, fd.stream, old(At()));
    }

    /** rio_read into a single character, which goes to position m of the line. */
    method TakeChar(usrbuf: array<char>, m: nat, ghost p: nat) returns (rc: int, c: char)
      requires Valid() && usrbuf != buf && m < usrbuf.Length
      requires At() == p + m && Same(usrbuf[..], 0, fd.stream, p, m)
      modifies this, fd, buf, usrbuf
      ensures Valid() && -1 <= rc <= 1
      ensures Used(old(fd.schedule), fd.schedule, rc == -1)
      ensures rc == 0 ==> At() == |fd.stream|
      ensures rc == 1 ==> At() == p + m + 1 && c == fd.stream[p + m] && Same(usrbuf[..], 0, fd.stream, p, m + 1)
      ensures rc != 1 ==> At() == p + m && usrbuf[..] == old(usrbuf[..])
    {
      hide Same; hide Sound; hide Used;
      rc, c := ReadChar();
      if rc == 1 {
        Append(usrbuf, m, c, fd.stream, p);
      }
    }

    /** The loop of rio_readlineb: n - 1 bytes of the line have been read; rc is -1 after an error, 0 at the end of the
        stream. */
    method LineLoop(usrbuf: array<char>, maxlen: nat) returns (n: int, rc: int)
      requires Valid() && usrbuf != buf && 1 <= usrbuf.Length && maxlen <= usrbuf.Length
      modifies this, fd, buf, usrbuf
      ensures Valid() && -1 <= rc <= 1 && 1 <= n && n - 1 <= Max0(maxlen - 1)
      ensures Used(old(fd.schedule), fd.schedule, rc == -1)
      ensures At() == old(At()) + (n - 1) && Same(usrbuf[..], 0, fd.stream, old(At()), n - 1)
      ensures n == 1 ==> usrbuf[0] == old(usrbuf[0]) && (rc == 1 ==> maxlen <= 1)
      ensures maxlen <= 1 ==> rc == 1
      ensures rc >= 0 ==> n - 1 == LineLength(fd.stream, old(At()), Max0(maxlen - 1))
    {
      hide LineLength; hide Same; hide Sound; hide Used;
      ghost var s, p, k := fd.stream, At(), Max0(maxlen - 1);
      SameNone(usrbuf[..], 0, s, p);
      UsedNone(fd.schedule);
      n, rc := 1, 1;
      while n < maxlen
        invariant Valid() && 1 <= n && n - 1 <= k && At() == p + (n - 1) && rc == 1
        invariant Used(old(fd.schedule), fd.schedule, false)
        invariant Same(usrbuf[..], 0, s, p, n - 1)
        invariant n == 1 ==> usrbuf[0] == old(usrbuf[0])
        invariant LineLength(s, p, k) == n - 1 + LineLength(s, At(), k - (n - 1))
      {
        ghost var i, ahead := At(), fd.schedule;
        var c;
        rc, c := TakeChar(usrbuf, n - 1, p);
        UsedThen(old(fd.schedule), ahead, fd.schedule, rc == -1);
        if rc < 0 {
          return;
        } else if rc == 0 {
          LineStops(s, i, k - (n - 1));
          return;
        }
        LineStep(s, p, i, k, n - 1);
        n := n + 1;
        if c == NEWLINE {
          return;
        }
      }
      LineStops(s, At(), 0);
    }

    /** rio_readlineb: reads a line of less than maxlen bytes and closes it with a NUL.  The NUL is not
        written when the stream has ended; it is written even if maxlen is 0. */
    method ReadLineB(usrbuf: array<char>, maxlen: nat) returns (r: int)
      requires Valid() && usrbuf != buf && 1 <= usrbuf.Length && maxlen <= usrbuf.Length
      modifies this, fd, buf, usrbuf
      ensures Valid() && r >= -1
      ensures Used(old(fd.schedule), fd.schedule, r == -1)
      ensures r >= 0 ==> r == Taken(fd.stream, old(At()), ReadLine(maxlen)) && At() == old(At()) + r
      ensures r >= 0 ==> IsLine(fd.stream, old(At()), if maxlen == 0 then 0 else maxlen - 1, r)
      ensures r >= 0 ==> r < usrbuf.Length && usrbuf[r] == if r == 0 && maxlen > 1 then old(usrbuf[0]) else '\0'
      ensures 0 <= At() - old(At()) <= Max0(maxlen - 1)
      ensures Same(usrbuf[..], 0, fd.stream, old(At()), At() - old(At()))
    {
      hide LineLength; hide Same; hide Sound; hide Used; hide IsLine;
      ghost var s, p, k := fd.stream, At(), Max0(maxlen - 1);
      LineLengthUnique(s, p, k, LineLength(s, p, k));
      var n, rc := LineLoop(usrbuf, maxlen);
      if rc < 0 {
        return -1;
      } else if rc == 0 && n == 1 {
        return 0;
      }
      Close(usrbuf, n - 1, s, p);
      return n - 1;
    }

    /** One call with a buffer of its own. */
    method Call(op: Op) returns (result: seq<char>)
      requires Valid() && Sound(fd.schedule)
      modifies this, fd, buf
      ensures Valid() && Sound(fd.schedule)
      ensures At() == old(At()) + Taken(fd.stream, old(At()), op)
      ensures result == fd.stream[old(At())..At()]
      ensures op.ReadN? ==> |result| <= op.n && (|result| < op.n ==> At() == |fd.stream|)
      ensures op.ReadLine? ==> IsLine(fd.stream, old(At()), if op.maxlen == 0 then 0 else op.maxlen - 1, |result|)
    {
      hide Same; hide Sound; hide Used; hide LineLength; hide IsLine;
      match op {
        case ReadN(n) =>
          var usrbuf := new char[n];
          var r := ReadNb(usrbuf, n);
          UsedSound(old(fd.schedule), fd.schedule, r == -1);
          SameIs(usrbuf[..], fd.stream, old(At()), r);
          result := usrbuf[..r];
        case ReadLine(maxlen) =>
          var usrbuf := new char[maxlen + 1];
          var r := ReadLineB(usrbuf, maxlen);
          UsedSound(old(fd.schedule), fd.schedule, r == -1);
          SameIs(usrbuf[..], fd.stream, old(At()), r);
          result := usrbuf[..r];
      }
    }

    lemma UnreadIs()
      requires Valid()
      ensures Unread() == fd.stream[At()..fd.pos]
    {
    }

    /** Any mix of the two calls. */
    method Serve(ops: seq<Op>) returns (results: seq<seq<char>>)
      requires Valid() && Sound(fd.schedule)
      modifies this, fd, buf
      ensures Valid() && At() == Position(fd.stream, old(At()), ops)
      ensures results == Results(fd.stream, old(At()), ops)
      ensures Joined(results) + Unread() == fd.stream[old(At())..fd.pos]
    {
      hide Sound; hide Taken; hide Same; hide Joined;
      results := [];
      ghost var s, p := fd.stream, At();
      var i := 0;
      while i < |ops|
        invariant 0 <= i <= |ops| && Valid() && Sound(fd.schedule)
        invariant At() == Position(s, p, ops[..i])
        invariant results == Results(s, p, ops[..i])
      {
        assert ops[..i + 1][..i] == ops[..i];
        var result := Call(ops[i]);
        results := results + [result];
        i := i + 1;
      }
      assert ops[..i] == ops;
      NothingLost(s, p, ops);
      UnreadIs();
      assert s[p..At()] + s[At()..fd.pos] == s[p..fd.pos];
    }
  }

  /** Two readers of the same bytes deliver the same, however their reads are split and interrupted. */
  method SplittingIsInvisible(stream: seq<char>, turns: seq<Turn>, turns': seq<Turn>, ops: seq<Op>)
    returns (one: seq<seq<char>>, other: seq<seq<char>>)
    requires Sound(turns) && Sound(turns')
    ensures one == other == Results(stream, 0, ops)
  {
    var f := new Descriptor(stream, turns);
    var x := new Reader(f);
    one := x.Serve(ops);
    var g := new Descriptor(stream, turns');
    var y := new Reader(g);
    other := y.Serve(ops);
  }

  /** Reading m bytes and then n is reading m + n. */
  lemma ReadSplit(s: seq<char>, i: nat, m: nat, n: nat)
    requires i <= |s|
    ensures Joined(Results(s, i, [ReadN(m), ReadN(n)])) == Joined(Results(s, i, [ReadN(m + n)]))
  {
    NothingLost(s, i, [ReadN(m), ReadN(n)]);
    NothingLost(s, i, [ReadN(m + n)]);
    assert [ReadN(m), ReadN(n)][..1] == [ReadN(m)] && [ReadN(m)][..0] == [];
  }
}
