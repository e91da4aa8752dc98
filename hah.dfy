/**
 * The line buffer of the H@H log watcher (tmacd/hah.py, `HaHEventHandler._push_lines`).
 *
 * Fragments read from the log are appended to `lines`; complete lines are taken off
 * the front, an incomplete first fragment being glued to the one after it (once),
 * and every line that reports a finished gallery download emits one call of the
 * uploader's `upload_torrent`. At most one incomplete fragment stays behind.
 */
module HaH {
  import opened Wrappers

  const FINISHED_PREFIX: string := "[info] GalleryDownloader: Finished download of gallery: "

  /** `line.endswith('\n')`. */
  predicate EndsWithNewline(s: string)
  {
    |s| > 0 && s[|s| - 1] == '\n'
  }

  /**
   * `re.match(r'\[info\] GalleryDownloader: Finished download of gallery: (.*)\n$', line)`
   * and its group 1: `.` stops at newlines, and `$` matches at the very end or before
   * one final newline, so the line is the prefix, a name without newlines, and one or
   * two newlines.
   */
  function MatchFinished(line: string): (m: Option<string>)
    ensures m.Some? ==>
      '\n' !in m.value &&
      (line == FINISHED_PREFIX + m.value + "\n" || line == FINISHED_PREFIX + m.value + "\n\n")
  {
    var n := |FINISHED_PREFIX|;
    if |line| < n || line[..n] != FINISHED_PREFIX then None
    else
      var rest := line[n..];
      assert line == FINISHED_PREFIX + rest;
      if |rest| >= 2 && rest[|rest| - 2..] == "\n\n" && '\n' !in rest[..|rest| - 2] then
        assert rest == rest[..|rest| - 2] + "\n\n";
        Some(rest[..|rest| - 2])
      else if |rest| >= 1 && rest[|rest| - 1] == '\n' && '\n' !in rest[..|rest| - 1] then
        assert rest == rest[..|rest| - 1] + "\n";
        Some(rest[..|rest| - 1])
      else None
  }

  /** The converse: every line of that shape matches and yields its name. */
  lemma MatchFinishedAccepts(name: string)
    requires '\n' !in name
    ensures MatchFinished(FINISHED_PREFIX + name + "\n") == Some(name)
    ensures MatchFinished(FINISHED_PREFIX + name + "\n\n") == Some(name)
  {
    var n := |FINISHED_PREFIX|;
    var one := FINISHED_PREFIX + name + "\n";
    assert one[..n] == FINISHED_PREFIX && one[n..] == name + "\n";
    assert (name + "\n")[..|name|] == name;
    assert |name| >= 1 ==> (name + "\n")[|name| - 1] == name[|name| - 1];
    var two := FINISHED_PREFIX + name + "\n\n";
    assert two[..n] == FINISHED_PREFIX && two[n..] == name + "\n\n";
    assert (name + "\n\n")[..|name|] == name;
    assert (name + "\n\n")[|name| + 2 - 2..] == "\n\n";
  }

  /** Only a line that starts with the prefix matches. */
  lemma MatchFinishedNeedsPrefix(line: string)
    ensures MatchFinished(line).Some? ==> |line| >= |FINISHED_PREFIX| && line[..|FINISHED_PREFIX|] == FINISHED_PREFIX
  {
  }

  /** The names a single line emits: one if it reports a finished download, else none. */
  function Emitted(line: string): seq<string>
  {
    match MatchFinished(line)
    case Some(name) => [name]
    case None => []
  }

  /** The lines the loop of `_push_lines` matches, in order, and what it leaves in the buffer. */
  datatype Split = Split(lines: seq<string>, rest: seq<string>)

  /** The buffer's first fragment is incomplete and nothing follows it: the loop stops. */
  predicate Stalled(buf: seq<string>)
  {
    |buf| == 1 && !EndsWithNewline(buf[0])
  }

  /** How many fragments the next line uses up: the first, and the one after it when the first is incomplete. */
  function Taken(buf: seq<string>): (n: nat)
    requires buf != [] && !Stalled(buf)
    ensures 1 <= n <= |buf|
  {
    if EndsWithNewline(buf[0]) then 1 else 2
  }

  /** The line the loop matches next. */
  function NextLine(buf: seq<string>): string
    requires buf != [] && !Stalled(buf)
  {
    if EndsWithNewline(buf[0]) then buf[0] else buf[0] + buf[1]
  }

  /** The loop of `_push_lines`, run on a whole buffer. */
  function Reassemble(buf: seq<string>): Split
    decreases |buf|
  {
    if buf == [] then Split([], [])
    else if Stalled(buf) then Split([], buf)
    else
      var s := Reassemble(buf[Taken(buf)..]);
      Split([NextLine(buf)] + s.lines, s.rest)
  }

  /** Matching lines one by one: the names of those that report a finished download, in order. */
  function EachLine(lines: seq<string>): seq<string>
  {
    if lines == [] then [] else Emitted(lines[0]) + EachLine(lines[1..])
  }

  lemma {:induction false} EachLineAppend(a: seq<string>, b: seq<string>)
    ensures EachLine(a + b) == EachLine(a) + EachLine(b)
    decreases |a|
  {
    if a == [] {
      assert a + b == b;
    } else {
      assert (a + b)[0] == a[0] && (a + b)[1..] == a[1..] + b;
      EachLineAppend(a[1..], b);
    }
  }

  lemma EachLineSnoc(matched: seq<string>, line: string)
    ensures EachLine(matched + [line]) == EachLine(matched) + Emitted(line)
  {
    EachLineAppend(matched, [line]);
    assert EachLine([line]) == Emitted(line) + EachLine([]);
  }

  /** One turn of the loop: the next line is matched and the rest of the buffer is handled alike. */
  lemma ReassembleStep(buf: seq<string>)
    requires buf != [] && !Stalled(buf)
    ensures Reassemble(buf).lines == [NextLine(buf)] + Reassemble(buf[Taken(buf)..]).lines
    ensures Reassemble(buf).rest == Reassemble(buf[Taken(buf)..]).rest
  {
  }

  /** The loop's invariant survives one turn: the matched line moves from the buffer's share to the caller's. */
  lemma StepKeepsSplit(total: seq<string>, before: seq<string>, matched: seq<string>)
    requires before != [] && !Stalled(before)
    requires Reassemble(total).lines == matched + Reassemble(before).lines
    requires Reassemble(total).rest == Reassemble(before).rest
    ensures Reassemble(total).lines == (matched + [NextLine(before)]) + Reassemble(before[Taken(before)..]).lines
    ensures Reassemble(total).rest == Reassemble(before[Taken(before)..]).rest
  {
    ReassembleStep(before);
  }

  /**
   * The buffer invariant: what stays behind is nothing, or the last fragment alone
   * when it is incomplete; and no more lines are matched than there are fragments.
   */
  lemma {:induction false} ReassembleLeavesOneFragment(buf: seq<string>)
    ensures Reassemble(buf).rest == [] ||
            (buf != [] && Reassemble(buf).rest == [buf[|buf| - 1]] && !EndsWithNewline(buf[|buf| - 1]))
    ensures |Reassemble(buf).lines| <= |buf|
    decreases |buf|
  {
    if buf != [] && !Stalled(buf) {
      var n := Taken(buf);
      ReassembleLeavesOneFragment(buf[n..]);
      assert Reassemble(buf[n..]).rest != [] ==> buf[n..][|buf[n..]| - 1] == buf[|buf| - 1];
    }
  }

  /** A buffer of complete lines is consumed entirely, each fragment matched on its own, in order. */
  lemma {:induction false} ReassembleCompleteLines(buf: seq<string>)
    requires forall i :: 0 <= i < |buf| ==> EndsWithNewline(buf[i])
    ensures Reassemble(buf) == Split(buf, [])
    decreases |buf|
  {
    if buf != [] {
      ReassembleCompleteLines(buf[1..]);
      assert buf == [buf[0]] + buf[1..];
    }
  }

  /**
   * Batching does not matter: pushing `a` and then `b` matches the lines that
   * pushing `a + b` at once matches, because the fragment `a` leaves behind heads
   * the next batch.
   */
  lemma {:induction false} ReassembleAppend(a: seq<string>, b: seq<string>)
    ensures Reassemble(a + b).lines == Reassemble(a).lines + Reassemble(Reassemble(a).rest + b).lines
    ensures Reassemble(a + b).rest == Reassemble(Reassemble(a).rest + b).rest
    decreases |a|
  {
    if a == [] {
      assert a + b == b;
    } else if Stalled(a) {
      assert Reassemble(a).rest + b == a + b;
    } else {
      var n := Taken(a);
      var ab := a + b;
      assert ab[0] == a[0];
      assert n == 2 ==> ab[1] == a[1];
      assert !Stalled(ab) && Taken(ab) == n && NextLine(ab) == NextLine(a);
      assert ab[n..] == a[n..] + b;
      ReassembleAppend(a[n..], b);
    }
  }

  /**
   * A complete finished-download line at the head of the buffer is matched on its
   * own and emits exactly its name, ahead of whatever follows.
   */
  lemma FinishedLineEmitsOne(name: string, more: seq<string>)
    requires '\n' !in name
    ensures var line := FINISHED_PREFIX + name + "\n";
      && Reassemble([line] + more).lines == [line] + Reassemble(more).lines
      && EachLine(Reassemble([line] + more).lines) == [name] + EachLine(Reassemble(more).lines)
  {
    var line := FINISHED_PREFIX + name + "\n";
    MatchFinishedAccepts(name);
    var buf := [line] + more;
    assert buf[0] == line && buf[1..] == more;
    assert EndsWithNewline(line);
    var ls := [line] + Reassemble(more).lines;
    assert ls[0] == line && ls[1..] == Reassemble(more).lines;
  }

  /** Two incomplete fragments glued together are still incomplete. */
  lemma IncompleteJoin(x: string, y: string)
    requires !EndsWithNewline(x) && !EndsWithNewline(y)
    ensures !EndsWithNewline(x + y)
  {
    if y == [] {
      assert x + y == x;
    } else {
      assert (x + y)[|x + y| - 1] == y[|y| - 1];
    }
  }

  /** An incomplete fragment glued to another incomplete one is matched as one line and emits nothing. */
  lemma JoinedPairDropped(x: string, y: string, more: seq<string>)
    requires !EndsWithNewline(x) && !EndsWithNewline(y)
    ensures Reassemble([x, y] + more).lines == [x + y] + Reassemble(more).lines
    ensures EachLine(Reassemble([x, y] + more).lines) == EachLine(Reassemble(more).lines)
  {
    var buf := [x, y] + more;
    assert buf[0] == x && buf[1] == y && buf[2..] == more;
    IncompleteJoin(x, y);
    assert Emitted(x + y) == [];
    assert ([x + y] + Reassemble(more).lines)[1..] == Reassemble(more).lines;
  }

  /**
   * A finished-download line that reaches the buffer in three fragments, the last
   * one not starting with the prefix, emits nothing: the first two are glued and
   * dropped, and the third alone does not match.
   */
  lemma ThreeWaySplitDropped(a: string, b: string, c: string, name: string)
    requires '\n' !in name
    requires a + b + c == FINISHED_PREFIX + name + "\n"
    requires !EndsWithNewline(a) && !EndsWithNewline(b)
    requires !(|c| >= |FINISHED_PREFIX| && c[..|FINISHED_PREFIX|] == FINISHED_PREFIX)
    ensures MatchFinished(a + b + c) == Some(name)
    ensures EachLine(Reassemble([a, b, c]).lines) == []
    ensures Reassemble([a, b, c]).rest == []
  {
    MatchFinishedAccepts(name);
    var whole := a + b + c;
    assert whole[|whole| - 1] == '\n';
    IncompleteJoin(a, b);
    assert EndsWithNewline(whole);
    assert c != [];
    assert whole[|whole| - 1] == c[|c| - 1];
    JoinedPairDropped(a, b, [c]);
    assert [a, b, c] == [a, b] + [c];
    assert [c][1..] == [];
    assert Reassemble([c]) == Split([c], []);
    MatchFinishedNeedsPrefix(c);
    assert EachLine([c]) == Emitted(c) + EachLine([]);
  }

  /**
   * The qualification: a third fragment that itself starts with the prefix does
   * match. Here the fragments `FINISHED_PREFIX`, `"x"` and `FINISHED_PREFIX + "y\n"`
   * emit `"y"`.
   */
  lemma PrefixedThirdFragmentEmits()
    ensures EachLine(Reassemble([FINISHED_PREFIX, "x", FINISHED_PREFIX + "y\n"]).lines) == ["y"]
  {
    var c := FINISHED_PREFIX + "y\n";
    assert c == FINISHED_PREFIX + "y" + "\n";
    assert !EndsWithNewline(FINISHED_PREFIX) && !EndsWithNewline("x");
    JoinedPairDropped(FINISHED_PREFIX, "x", [c]);
    assert [FINISHED_PREFIX, "x", c] == [FINISHED_PREFIX, "x"] + [c];
    FinishedLineEmitsOne("y", []);
    assert [c] + [] == [c];
    assert Reassemble([]).lines == [] && EachLine([]) == [];
  }

  /** The call `_push_lines` schedules: `upload_torrent` with these three arguments, as written. */
  datatype Callback = UploadTorrentCall(uploadTo: string, downloadPath: string, names: seq<string>)

  class HaHEventHandler {
    const downloadPath: string
    /** `settings['upload_to']`. */
    const uploadTo: string
    var lines: seq<string>

    /** The buffer holds nothing or one incomplete fragment. */
    ghost predicate Valid()
      reads this
    {
      lines == [] || (|lines| == 1 && !EndsWithNewline(lines[0]))
    }

    constructor (downloadPath: string, uploadTo: string)
      ensures this.downloadPath == downloadPath && this.uploadTo == uploadTo
      ensures lines == [] && Valid()
    {
      this.downloadPath := downloadPath;
      this.uploadTo := uploadTo;
      lines := [];
    }

    method PushLines(newLines: seq<string>) returns (calls: seq<Callback>)
      modifies this
      ensures Valid()
      ensures lines == Reassemble(old(lines) + newLines).rest
      ensures var names := EachLine(Reassemble(old(lines) + newLines).lines);
        |calls| == |names| &&
        forall k :: 0 <= k < |calls| ==> calls[k] == UploadTorrentCall(uploadTo, downloadPath, [names[k]])
    {
      lines := lines + newLines;
      ghost var total := lines;
      ghost var matched: seq<string> := [];
      ghost var emitted: seq<string> := [];
      calls := [];
      while lines != []
        invariant Reassemble(total).lines == matched + Reassemble(lines).lines
        invariant Reassemble(total).rest == Reassemble(lines).rest
        invariant emitted == EachLine(matched)
        invariant |calls| == |emitted|
        invariant forall k :: 0 <= k < |calls| ==> calls[k] == UploadTorrentCall(uploadTo, downloadPath, [emitted[k]])
        decreases |lines|
      {
        ghost var before := lines;
        var line := lines[0];
        if !EndsWithNewline(line) {
          if |lines| <= 1 {
            break;
          }
          lines := lines[1..];
          line := line + lines[0];
        }
        var m := MatchFinished(line);
        ghost var callsBefore := calls;
        if m.Some? {
          calls := calls + [UploadTorrentCall(uploadTo, downloadPath, [m.value])];
        }
        lines := lines[1..];
        assert lines == before[Taken(before)..] && line == NextLine(before);
        StepKeepsSplit(total, before, matched);
        EachLineSnoc(matched, line);
        assert Emitted(line) == if m.Some? then [m.value] else [];
        emitted := emitted + Emitted(line);
        matched := matched + [line];
      }
      if lines != [] {
        assert Reassemble(lines) == Split([], lines);
      }
      assert matched + [] == matched;
    }
  }
}
