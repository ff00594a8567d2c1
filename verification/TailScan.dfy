/** The tail program of Exercise/13/13_5.c: it reads the file backwards in blocks until it has seen the
    given number of newlines, and copies what follows. */
module TailScan {

  function Newlines(s: string): nat {
    if s == "" then 0 else (if s[0] == '\n' then 1 else 0) + Newlines(s[1..])
  }

  lemma {:induction false} NewlinesConcat(s: string, t: string)
    ensures Newlines(s + t) == Newlines(s) + Newlines(t)
  {
    if s == "" {
      assert s + t == t;
    } else {
      assert (s + t)[1..] == s[1..] + t;
      NewlinesConcat(s[1..], t);
    }
  }

  lemma NewlinesFrom(s: string, i: nat, j: nat)
    requires i <= j <= |s|
    ensures Newlines(s[i..]) == Newlines(s[i..j]) + Newlines(s[j..])
  {
    assert s[i..] == s[i..j] + s[j..];
    NewlinesConcat(s[i..j], s[j..]);
  }

  /** `start` follows the num-th newline from the end, or is 0 if the file has fewer newlines. */
  predicate FollowsNewline(file: string, num: int, start: int) {
    0 <= start <= |file| &&
    if Newlines(file) >= num then start > 0 && file[start - 1] == '\n' && Newlines(file[start..]) == num - 1
    else start == 0
  }

  lemma FewerBeyond(file: string, i: nat, j: nat)
    requires i < j <= |file| && file[j - 1] == '\n'
    ensures Newlines(file[i..]) > Newlines(file[j..])
  {
    NewlinesFrom(file, i, j - 1);
    assert file[j - 1..][1..] == file[j..];
  }

  /** There is one such place at most. */
  lemma OnePlace(file: string, num: int, i: int, j: int)
    requires FollowsNewline(file, num, i) && FollowsNewline(file, num, j)
    ensures i == j
  {
    if i < j {
      FewerBeyond(file, i, j);
    } else if j < i {
      FewerBeyond(file, j, i);
    }
  }

  /** The last `size` bytes of the file hold no newline. */
  predicate LastBlockUnbroken(file: string, size: nat) {
    size <= |file| && Newlines(file[|file| - size..]) == 0
  }

  /** What the program writes. */
  ghost predicate IsOutput(file: string, num: int, size: nat, out: string) {
    if num >= 1 then exists start :: FollowsNewline(file, num, start) && out == file[start..]
    else if num == 0 && LastBlockUnbroken(file, size) then out == file[|file| - size..]
    else out == file
  }

  // ---- the program ----

  /** read() of `n` bytes at offset `pos`. */
  method Read(file: string, pos: nat, buf: array<char>, n: nat)
    requires pos + n <= |file| && n <= buf.Length
    modifies buf
    ensures buf[..n] == file[pos..pos + n]
  {
    for i := 0 to n
      invariant buf[..i] == file[pos..pos + i]
    {
      buf[i] := file[pos + i];
    }
  }

  /** The inner loop: counts the newlines of the block at `pos` from its end, and moves to just after
      the one that brings the count to `num`. */
  method ScanBlock(buf: array<char>, n: nat, pos: nat, num: int, ret: nat) returns (ret': nat, pos': nat)
    requires n <= buf.Length
    ensures pos' == pos ==> ret' == ret + Newlines(buf[..n]) && (ret < num ==> ret' < num)
    ensures pos' != pos ==>
              && pos < pos' <= pos + n && buf[pos' - pos - 1] == '\n'
              && ret' == num == ret + Newlines(buf[pos' - pos - 1..n])
  {
    ret', pos' := ret, pos;
    var i := n;
    while i > 0
      invariant 0 <= i <= n && pos' == pos
      invariant ret' == ret + Newlines(buf[i..n])
      invariant ret < num ==> ret' < num
    {
      i := i - 1;
      assert buf[i..n][1..] == buf[i + 1..n];
      if buf[i] == '\n' {
        ret' := ret' + 1;
        if ret' == num {
          pos' := pos + i + 1;
          return;
        }
      }
    }
    assert buf[0..n] == buf[..n];
  }

  lemma WholeSlice(s: string)
    ensures s[0..] == s
  {
  }

  /** The newline found in the block at `block` is the num-th from the end of the file. */
  lemma Found(file: string, num: int, buf: string, block: nat, pos: nat, before: nat)
    requires block < pos <= block + |buf| <= |file| && buf == file[block..block + |buf|]
    requires before == Newlines(file[block + |buf|..])
    requires buf[pos - block - 1] == '\n' && num == before + Newlines(buf[pos - block - 1..])
    ensures num >= 1 && FollowsNewline(file, num, pos)
  {
    assert buf[pos - block - 1..] == file[pos - 1..block + |buf|];
    NewlinesFrom(file, pos - 1, block + |buf|);
    assert file[pos - 1..][1..] == file[pos..];
    NewlinesFrom(file, 0, pos - 1);
    WholeSlice(file);
  }

  /** The scan has reached `pos` without finding what it looks for. */
  ghost predicate Passed(file: string, num: int, size: nat, pos: nat, ret: nat) {
    && pos <= |file| && ret == Newlines(file[pos..])
    && (num >= 1 ==> ret < num)
    && (num == 0 && pos < |file| ==> ret > 0 && !LastBlockUnbroken(file, size))
  }

  /** The block before `cur` has been scanned to its beginning. */
  lemma PassedBlock(file: string, num: int, size: nat, cur: nat, n: nat, before: nat, ret: nat)
    requires Passed(file, num, size, cur, before) && n <= cur
    requires ret == before + Newlines(file[cur - n..cur]) && (before < num ==> ret < num)
    ensures n == size && ret != num ==> Passed(file, num, size, cur - n, ret)
    ensures n == size && ret == num ==> IsOutput(file, num, size, file[cur - n..])
    ensures n == cur < size ==> IsOutput(file, num, size, file[0..])
  {
    NewlinesFrom(file, cur - n, cur);
    hide Newlines;
    assert cur == |file| ==> cur - n == |file| - n;
    WholeSlice(file);
  }

  /** The scan; `size` is BUFSIZE. */
  method Scan(file: string, num: int, size: nat) returns (pos: nat)
    requires size >= 1
    ensures pos <= |file| && IsOutput(file, num, size, file[pos..])
  {
    hide Newlines, LastBlockUnbroken, FollowsNewline;
    var buf := new char[size];
    var ret: nat := 0;
    pos := |file|;
    NothingPassed(file, num, size);
    while true
      invariant Passed(file, num, size, pos, ret)
      decreases pos
    {
      var cur := pos;
      if cur >= size {
        pos := cur - size;
        Read(file, pos, buf, size);
        var before, block := ret, pos;
        ret, pos := ScanBlock(buf, size, pos, num, ret);
        if ret == num {
          if pos != block {
            Found(file, num, buf[..size], block, pos, before);
          } else {
            PassedBlock(file, num, size, cur, size, before, ret);
          }
          return;
        }
        PassedBlock(file, num, size, cur, size, before, ret);
      } else {
        pos := 0;
        Read(file, pos, buf, cur);
        var before := ret;
        ret, pos := ScanBlock(buf, cur, pos, num, ret);
        if pos != 0 {
          Found(file, num, buf[..cur], 0, pos, before);
        } else {
          PassedBlock(file, num, size, cur, cur, before, ret);
        }
        return;
      }
    }
  }

  lemma NothingPassed(file: string, num: int, size: nat)
    ensures Passed(file, num, size, |file|, 0)
  {
    assert file[|file|..] == "";
  }

  /** The whole program. */
  method Tail(file: string, num: int, size: nat) returns (out: string)
    requires size >= 1
    ensures IsOutput(file, num, size, out)
  {
    hide IsOutput;
    var start := Scan(file, num, size);
    var buf := new char[size];
    var pos := start;
    out := "";
    while true
      invariant start <= pos <= |file| && out == file[start..pos]
      decreases |file| - pos
    {
      var n := if |file| - pos < size then |file| - pos else size;
      Read(file, pos, buf, n);
      if n == 0 {
        assert file[start..pos] == file[start..];
        return;
      }
      out := out + buf[..n];
      pos := pos + n;
    }
  }

  // ---- how this differs from the last lines ----

  /** Every newline ends a line, and so does the end of the file. */
  function Lines(s: string): nat {
    Newlines(s) + if s != "" && s[|s| - 1] != '\n' then 1 else 0
  }

  /** From `start` on the file has its last `num` lines, or all of them if it has no more. */
  predicate LastLines(file: string, num: int, start: int) {
    && 0 <= start <= |file| && (start > 0 ==> file[start - 1] == '\n')
    && if Lines(file) >= num then Lines(file[start..]) == num else start == 0
  }

  /** The output is the last `num` lines exactly when the file does not end in a newline or has fewer
      newlines than `num`; otherwise it is one line short. */
  lemma LastLinesIff(file: string, num: int, start: int)
    requires num >= 1 && FollowsNewline(file, num, start)
    ensures LastLines(file, num, start) <==> file == "" || file[|file| - 1] != '\n' || Newlines(file) < num
    ensures !LastLines(file, num, start) ==> Lines(file[start..]) == num - 1
  {
    WholeSlice(file);
    if start < |file| {
      assert file[start..][|file| - start - 1] == file[|file| - 1];
    }
  }

  /** The last line of this file is "a", and the program prints nothing. */
  lemma OneLineShort(size: nat)
    requires size >= 1
    ensures IsOutput("a\n", 1, size, "") && Lines("a\n") == 1
    ensures LastLines("a\n", 1, 0) && !LastLines("a\n", 1, 2)
  {
    var file := "a\n";
    assert file[1..] == "\n" && file[2..] == "" && file[0..] == file;
    assert Newlines(file[1..]) == 1 + Newlines(file[1..][1..]);
    assert Newlines(file) == 1;
    assert FollowsNewline(file, 1, 2);
  }

  /** The block size does not matter for a positive number of newlines. */
  lemma SizeIsIrrelevant(file: string, num: int, size: nat, size': nat, out: string, out': string)
    requires num >= 1 && IsOutput(file, num, size, out) && IsOutput(file, num, size', out')
    ensures out == out'
  {
    var i :| FollowsNewline(file, num, i) && out == file[i..];
    var j :| FollowsNewline(file, num, j) && out' == file[j..];
    OnePlace(file, num, i, j);
  }
}
