/**
 The access-log tailer (internal/agent/devices.go): how far a collect reads, what
 it reports, and why nothing is read twice. The line pattern and the timestamp
 parser are parameters.
 */
module TailerSpec {
  import opened Wrappers
  import Text

  datatype Key = Key(email: string, ip: string)

  datatype Hit = Hit(key: Key, kind: string)

  /** How a line is recognised and dated. */
  datatype Rules = Rules(parse: string -> Option<Hit>, stamp: string -> Option<int>)

  datatype Device = Device(kind: string, conns: nat, lastSeen: int)

  /** A log file: its identity and its bytes. */
  datatype LogFile = LogFile(inode: int, content: string)

  datatype Pos = Pos(offset: nat, inode: int)

  datatype Watcher = Watcher(pos: Pos, seeded: bool)

  const MAX_LINE := 1048576

  // ---- scanning ----

  /** A trailing carriage return is dropped from each line. */
  function DropCR(line: string): string {
    if line != "" && line[|line| - 1] == '\r' then line[..|line| - 1] else line
  }

  /** The lines a scanner yields; an unterminated last line counts, a line that fills the buffer stops it. */
  function Scan(chunk: string): seq<string>
    decreases |chunk|
  {
    if chunk == "" then []
    else if Text.IndexFrom(chunk, "\n", 0) < 0 then (if |chunk| < MAX_LINE then [DropCR(chunk)] else [])
    else if Text.IndexFrom(chunk, "\n", 0) < MAX_LINE
    then [DropCR(chunk[..Text.IndexFrom(chunk, "\n", 0)])] + Scan(chunk[Text.IndexFrom(chunk, "\n", 0) + 1..])
    else []
  }

  /** How far the offset advances: each line and one byte for its newline. */
  function Consumed(tokens: seq<string>): nat {
    if tokens == [] then 0 else Consumed(tokens[..|tokens| - 1]) + |tokens[|tokens| - 1]| + 1
  }

  // ---- reporting ----

  /** A line's own time; unparseable or ahead of the clock means now. */
  function LineTime(r: Rules, line: string, now: int): int {
    match r.stamp(line)
    case Some(ts) => if ts <= now then ts else now
    case None => now
  }

  /** A recognised line of a named user. */
  function HitOf(r: Rules, line: string): Option<Hit> {
    match r.parse(line)
    case Some(h) => if h.key.email == "" || h.key.email == "unknown" then None else Some(h)
    case None => None
  }

  function Max(a: int, b: int): int {
    if a > b then a else b
  }

  function Observe(m: map<Key, Device>, h: Hit, ts: int): map<Key, Device> {
    if h.key in m
    then m[h.key := Device(h.kind, m[h.key].conns + 1, Max(m[h.key].lastSeen, ts))]
    else m[h.key := Device(h.kind, 1, Max(0, ts))]
  }

  function AggregateOne(r: Rules, m: map<Key, Device>, line: string, now: int): map<Key, Device> {
    match HitOf(r, line)
    case Some(h) => Observe(m, h, LineTime(r, line, now))
    case None => m
  }

  function Aggregate(r: Rules, tokens: seq<string>, now: int): map<Key, Device> {
    if tokens == [] then map[]
    else AggregateOne(r, Aggregate(r, tokens[..|tokens| - 1], now), tokens[|tokens| - 1], now)
  }

  function Conns(m: map<Key, Device>, k: Key): nat {
    if k in m then m[k].conns else 0
  }

  function HitOne(r: Rules, line: string, k: Key): nat {
    if HitOf(r, line).Some? && HitOf(r, line).value.key == k then 1 else 0
  }

  /** The number of lines that are a connection of device `k`. */
  function Hits(r: Rules, lines: seq<string>, k: Key): nat {
    if lines == [] then 0 else Hits(r, lines[..|lines| - 1], k) + HitOne(r, lines[|lines| - 1], k)
  }

  /** A device's reported connections are its matching lines. */
  lemma {:induction false} ConnsAreHits(r: Rules, tokens: seq<string>, now: int, k: Key)
    ensures Conns(Aggregate(r, tokens, now), k) == Hits(r, tokens, k)
  {
    if tokens != [] {
      ConnsAreHits(r, tokens[..|tokens| - 1], now, k);
      AggregateOneHits(r, Aggregate(r, tokens[..|tokens| - 1], now), tokens[|tokens| - 1], now, k);
    }
  }

  lemma AggregateOneHits(r: Rules, m: map<Key, Device>, line: string, now: int, k: Key)
    ensures Conns(AggregateOne(r, m, line, now), k) == Conns(m, k) + HitOne(r, line, k)
  {
  }

  /** A line is a connection of a device exactly when it is recognised as one, of a named user. */
  lemma HitExactly(r: Rules, line: string, k: Key)
    ensures HitOne(r, line, k) ==
            if r.parse(line).Some? && r.parse(line).value.key == k && k.email != "" && k.email != "unknown" then 1
            else 0
  {
  }

  /** A line is dated by its own stamp, unless it has none or one ahead of the clock: then by the clock. */
  lemma LineTimeIs(r: Rules, line: string, now: int)
    ensures LineTime(r, line, now) ==
            if r.stamp(line).Some? && r.stamp(line).value <= now then r.stamp(line).value else now
  {
  }

  /**
   A device is dated by its latest line and never ahead of the clock: no line of it
   carries a later stamp that the clock has reached, an unreadable or future stamp
   dates it now, and the date is some line's.
   */
  lemma {:induction false} LastSeenLatest(r: Rules, tokens: seq<string>, now: int, k: Key)
    requires now >= 0
    ensures var m := Aggregate(r, tokens, now);
            k in m ==>
              && 0 <= m[k].lastSeen <= now
              && (forall i :: 0 <= i < |tokens| && HitOne(r, tokens[i], k) == 1 ==>
                    if r.stamp(tokens[i]).Some? && r.stamp(tokens[i]).value <= now
                    then r.stamp(tokens[i]).value <= m[k].lastSeen else m[k].lastSeen == now)
              && (m[k].lastSeen == 0 ||
                  exists i :: 0 <= i < |tokens| && HitOne(r, tokens[i], k) == 1 &&
                    if r.stamp(tokens[i]).Some? && r.stamp(tokens[i]).value <= now
                    then m[k].lastSeen == r.stamp(tokens[i]).value else m[k].lastSeen == now)
    ensures k !in Aggregate(r, tokens, now) ==> forall i :: 0 <= i < |tokens| ==> HitOne(r, tokens[i], k) == 0
  {
    if tokens != [] {
      var rest, last := tokens[..|tokens| - 1], tokens[|tokens| - 1];
      LastSeenLatest(r, rest, now, k);
      LineTimeIs(r, last, now);
      var was, m := Aggregate(r, rest, now), Aggregate(r, tokens, now);
      assert forall i :: 0 <= i < |rest| ==> tokens[i] == rest[i];
      if k in was && was[k].lastSeen != 0 {
        var i :| 0 <= i < |rest| && HitOne(r, rest[i], k) == 1 &&
          if r.stamp(rest[i]).Some? && r.stamp(rest[i]).value <= now
          then was[k].lastSeen == r.stamp(rest[i]).value else was[k].lastSeen == now;
        assert HitOne(r, tokens[i], k) == 1;
      }
    }
  }

  /** A device is reported under the kind of inbound of its last line. */
  lemma {:induction false} KindIsLast(r: Rules, tokens: seq<string>, now: int, k: Key) returns (i: int)
    requires k in Aggregate(r, tokens, now)
    ensures 0 <= i < |tokens| && HitOne(r, tokens[i], k) == 1
    ensures forall j :: i < j < |tokens| ==> HitOne(r, tokens[j], k) == 0
    ensures r.parse(tokens[i]).Some? && Aggregate(r, tokens, now)[k].kind == r.parse(tokens[i]).value.kind
  {
    var rest, last := tokens[..|tokens| - 1], tokens[|tokens| - 1];
    i := |rest|;
    if HitOne(r, last, k) == 0 {
      i := KindIsLast(r, rest, now, k);
      assert forall j :: 0 <= j < |rest| ==> tokens[j] == rest[j];
    }
  }

  lemma {:induction false} HitsConcat(r: Rules, a: seq<string>, b: seq<string>, k: Key)
    ensures Hits(r, a + b, k) == Hits(r, a, k) + Hits(r, b, k)
  {
    if b == [] {
      assert a + b == a;
    } else {
      assert (a + b)[..|a + b| - 1] == a + b[..|b| - 1];
      HitsConcat(r, a, b[..|b| - 1], k);
    }
  }

  // ---- one collect ----

  /** The position a collect starts from: a new file from 0, a shrunken one too. */
  function StartPos(p: Pos, f: LogFile): Pos {
    if p.inode != f.inode then Pos(0, f.inode)
    else if |f.content| < p.offset then Pos(0, f.inode)
    else p
  }

  function Unseen(w: Watcher, f: LogFile): string
  {
    f.content[StartPos(w.pos, f).offset..]
  }

  /** The lines a collect reads. */
  function TokensRead(w: Watcher, f: LogFile): seq<string>
  {
    if !w.seeded then [] else Scan(Unseen(w, f))
  }

  /** The first collect ever only takes its position: at the end of what is there. */
  function AfterCollect(w: Watcher, f: LogFile): Watcher
  {
    if !w.seeded then Watcher(Pos(|f.content|, f.inode), true)
    else Watcher(Pos(StartPos(w.pos, f).offset + Consumed(TokensRead(w, f)), f.inode), true)
  }

  /** The position is saved whenever it was taken or something was there to read. */
  function SavedAfter(w: Watcher, disk: Option<Pos>, f: LogFile): Option<Pos>
  {
    if w.seeded && Unseen(w, f) == "" then disk else Some(AfterCollect(w, f).pos)
  }

  // ---- how far the offset moves, for any bytes ----

  /** Lines joined with their newlines. */
  function Joined(lines: seq<string>): string {
    if lines == [] then "" else lines[0] + "\n" + Joined(lines[1..])
  }

  predicate RawLine(l: string) {
    '\n' !in l && |l| < MAX_LINE
  }

  function CrOne(l: string): nat {
    if DropCR(l) == l then 0 else 1
  }

  function CrCount(lines: seq<string>): nat {
    if lines == [] then 0 else CrCount(lines[..|lines| - 1]) + CrOne(lines[|lines| - 1])
  }

  function Dropped(lines: seq<string>): seq<string> {
    seq(|lines|, i requires 0 <= i < |lines| => DropCR(lines[i]))
  }

  function Rest(tail: string): seq<string> {
    if tail == "" then [] else [tail]
  }

  lemma ScanTail(tail: string)
    requires RawLine(tail)
    ensures Scan(tail) == Dropped(Rest(tail))
  {
    Text.NoIndex(tail, "\n");
  }

  lemma ScanStep(l: string, more: string)
    requires RawLine(l)
    ensures Scan(l + ("\n" + more)) == [DropCR(l)] + Scan(more)
  {
    var chunk := l + ("\n" + more);
    Text.IndexAfterPart(l, "\n", more);
    assert chunk[..|l|] == l && chunk[|l| + 1..] == more;
  }

  /** Short lines are scanned as they are, whatever follows them. */
  lemma {:induction false} ScanLines(lines: seq<string>, more: string)
    requires forall i :: 0 <= i < |lines| ==> RawLine(lines[i])
    ensures Scan(Joined(lines) + more) == Dropped(lines) + Scan(more)
    decreases |lines|
  {
    hide Scan, DropCR;
    if lines == [] {
      assert Joined(lines) + more == more;
    } else {
      var rest := Joined(lines[1..]) + more;
      assert Joined(lines) + more == lines[0] + ("\n" + rest);
      ScanStep(lines[0], rest);
      ScanLines(lines[1..], more);
      assert Dropped(lines) == [DropCR(lines[0])] + Dropped(lines[1..]);
    }
  }

  /** Any text of short lines scans to those lines, the unterminated rest included. */
  lemma ScanJoined(lines: seq<string>, tail: string)
    requires forall i :: 0 <= i < |lines| ==> RawLine(lines[i])
    requires RawLine(tail)
    ensures Scan(Joined(lines) + tail) == Dropped(lines + Rest(tail))
  {
    ScanLines(lines, tail);
    ScanTail(tail);
    assert Dropped(lines + Rest(tail)) == Dropped(lines) + Dropped(Rest(tail));
  }

  lemma {:induction false} JoinedLength(lines: seq<string>)
    ensures |Joined(lines)| == Consumed(Dropped(lines)) + CrCount(lines)
  {
    if lines != [] {
      hide Joined, DropCR;
      var rest, last := lines[..|lines| - 1], lines[|lines| - 1];
      JoinedLength(rest);
      JoinedSnoc(rest, last);
      DroppedLength(last);
      assert lines == rest + [last];
      assert Dropped(lines)[..|lines| - 1] == Dropped(rest);
    }
  }

  lemma DroppedLength(l: string)
    ensures |l| == |DropCR(l)| + CrOne(l)
  {
  }

  lemma {:induction false} JoinedSnoc(lines: seq<string>, last: string)
    ensures Joined(lines + [last]) == Joined(lines) + last + "\n"
  {
    if lines == [] {
      assert lines + [last] == [last];
      assert Joined([last]) == last + "\n" + Joined([]);
    } else {
      assert (lines + [last])[1..] == lines[1..] + [last];
      JoinedSnoc(lines[1..], last);
    }
  }

  lemma {:induction false} JoinedConcat(a: seq<string>, b: seq<string>)
    ensures Joined(a + b) == Joined(a) + Joined(b)
  {
    if a == [] {
      assert a + b == b;
    } else {
      assert (a + b)[1..] == a[1..] + b;
      JoinedConcat(a[1..], b);
    }
  }

  /**
   Exactly how far a collect's offset moves over unread text of short lines: to the
   end of the text, plus one for an unterminated last line, minus one for every
   line that ends in a carriage return.
   */
  lemma OffsetExact(lines: seq<string>, tail: string)
    requires forall i :: 0 <= i < |lines| ==> RawLine(lines[i])
    requires RawLine(tail)
    ensures Consumed(Scan(Joined(lines) + tail)) ==
            |Joined(lines) + tail| + |Rest(tail)| - CrCount(lines + Rest(tail))
  {
    ScanJoined(lines, tail);
    JoinedLength(lines + Rest(tail));
    if tail == "" {
      assert lines + Rest(tail) == lines;
      assert Joined(lines) + tail == Joined(lines);
    } else {
      JoinedSnoc(lines, tail);
    }
  }

  // ---- when two collects read what one would ----

  function Grown(f: LogFile, more: string): LogFile {
    f.(content := f.content + more)
  }

  /** Whatever is written after a collect, it and the next one together read what a single later one would. */
  ghost predicate ReadsOnce(w: Watcher, f: LogFile) {
    forall more: string ::
      TokensRead(w, f) + TokensRead(AfterCollect(w, f), Grown(f, more)) == TokensRead(w, Grown(f, more))
  }

  /** A log read up to the end of `seen`, with `unread` after it. */
  function LogOf(inode: int, seen: string, unread: string): LogFile {
    LogFile(inode, seen + unread)
  }

  function At(offset: nat, inode: int): Watcher {
    Watcher(Pos(offset, inode), true)
  }

  /** What a collect reads from the end of `seen`, and where it stops. */
  lemma FirstCollect(inode: int, seen: string, unread: string)
    ensures var f, w := LogOf(inode, seen, unread), At(|seen|, inode);
            TokensRead(w, f) == Scan(unread) && AfterCollect(w, f) == At(|seen| + Consumed(Scan(unread)), inode)
  {
    hide Scan, Consumed;
    assert LogOf(inode, seen, unread).content[|seen|..] == unread;
  }

  /** What the next one reads, when its position is still within the file. */
  lemma SecondCollect(inode: int, seen: string, unread: string, more: string, left: string)
    requires Consumed(Scan(unread)) <= |unread + more| && (unread + more)[Consumed(Scan(unread))..] == left
    ensures var f, w := LogOf(inode, seen, unread), At(|seen|, inode);
            TokensRead(AfterCollect(w, f), Grown(f, more)) == Scan(left) &&
            TokensRead(w, Grown(f, more)) == Scan(unread + more)
  {
    hide Scan, Consumed;
    var f := LogOf(inode, seen, unread);
    var n := Consumed(Scan(unread));
    FirstCollect(inode, seen, unread);
    assert Grown(f, more).content == seen + (unread + more);
    assert Grown(f, more).content[|seen|..] == unread + more;
    assert Grown(f, more).content[|seen| + n..] == left;
  }

  /** A text of short lines read from any point but its end gives at least one line. */
  lemma {:induction false} SuffixScans(lines: seq<string>, k: nat)
    requires forall i :: 0 <= i < |lines| ==> RawLine(lines[i])
    requires k < |Joined(lines)|
    ensures Scan(Joined(lines)[k..]) != []
    decreases |lines|
  {
    hide Scan;
    if k <= |lines[0]| {
      assert Joined(lines)[k..] == lines[0][k..] + ("\n" + Joined(lines[1..]));
      ScanStep(lines[0][k..], Joined(lines[1..]));
    } else {
      SuffixScans(lines[1..], k - |lines[0]| - 1);
      assert Joined(lines)[k..] == Joined(lines[1..])[k - |lines[0]| - 1..];
    }
  }

  /** From the end of whole lines without carriage returns, everything after is read exactly once. */
  lemma WholeReadsOnce(inode: int, seen: string, lines: seq<string>)
    requires forall i :: 0 <= i < |lines| ==> RawLine(lines[i])
    requires CrCount(lines) == 0
    ensures ReadsOnce(At(|seen|, inode), LogOf(inode, seen, Joined(lines)))
  {
    hide Scan, Joined, TokensRead, AfterCollect, Consumed, LogOf, At, Grown;
    var f, w := LogOf(inode, seen, Joined(lines)), At(|seen|, inode);
    ScannedWhole(lines);
    JoinedLength(lines);
    FirstCollect(inode, seen, Joined(lines));
    forall more: string
      ensures TokensRead(w, f) + TokensRead(AfterCollect(w, f), Grown(f, more)) == TokensRead(w, Grown(f, more))
    {
      ScanLines(lines, more);
      assert (Joined(lines) + more)[|Joined(lines)|..] == more;
      SecondCollect(inode, seen, Joined(lines), more, more);
    }
  }

  lemma ScannedWhole(lines: seq<string>)
    requires forall i :: 0 <= i < |lines| ==> RawLine(lines[i])
    ensures Scan(Joined(lines)) == Dropped(lines)
  {
    ScanJoined(lines, "");
    assert Joined(lines) + "" == Joined(lines) && lines + Rest("") == lines;
  }

  /**
   A line ended by carriage return and newline is read without either, and leaves the
   position one short of the file's end: the next collect starts at that newline.
   */
  lemma CarriageReturnLags(inode: int, seen: string, line: string)
    requires '\n' !in line && |line| + 1 < 1048576
    ensures var f, w := LogOf(inode, seen, line + "\r" + "\n"), At(|seen|, inode);
            TokensRead(w, f) == [line] && AfterCollect(w, f) == At(|f.content| - 1, inode)
  {
    hide Scan, Consumed;
    var raw := line + "\r";
    FirstCollect(inode, seen, raw + "\n");
    ScanStep(raw, "");
    assert raw + ("\n" + "") == raw + "\n" && DropCR(raw) == line;
    NothingScans();
    assert [line] + [] == [line];
    ConsumedOne(line);
  }

  lemma NothingScans()
    ensures Scan("") == [] && Consumed([]) == 0
  {
  }

  lemma ConsumedOne(line: string)
    ensures Consumed([line]) == |line| + 1
  {
  }

  /** A half-written line, completed by one more character: its end is read as a line of its own. */
  lemma HalfReadsTwice(inode: int, seen: string, lines: seq<string>, tail: string, x: string, more: string)
    requires forall i :: 0 <= i < |lines| ==> RawLine(lines[i])
    requires RawLine(tail) && tail != "" && CrCount(lines + [tail]) == 0
    requires |x| == 1 && '\n' !in x && more == x + "\n"
    ensures var f, w := LogOf(inode, seen, Joined(lines) + tail), At(|seen|, inode);
            TokensRead(w, f) + TokensRead(AfterCollect(w, f), Grown(f, more)) != TokensRead(w, Grown(f, more))
  {
    hide Scan, Joined, TokensRead, AfterCollect, Consumed, LogOf, At, Grown, CrCount;
    var unread, ended := Joined(lines) + tail, tail + x + "\n";
    ScanJoined(lines, tail);
    OffsetExact(lines, tail);
    FirstCollect(inode, seen, unread);
    OneMore(Joined(lines), tail, x, more);
    ScanLines(lines, ended);
    AtMostOneLine(tail + x);
    SecondCollect(inode, seen, unread, more, "\n");
    NewlineScans();
  }

  lemma OneMore(before: string, tail: string, x: string, more: string)
    requires |x| == 1 && more == x + "\n"
    ensures before + tail + more == before + (tail + x + "\n")
    ensures (before + tail + more)[|before + tail| + 1..] == "\n"
  {
  }

  lemma NewlineScans()
    ensures |Scan("\n")| == 1
  {
    ScanStep("", "");
    assert "" + ("\n" + "") == "\n";
  }

  lemma AtMostOneLine(l: string)
    requires '\n' !in l
    ensures |Scan(l + "\n")| <= 1
  {
    Text.IndexAfterPart(l, "\n", "");
    assert l + ("\n" + "") == l + "\n";
    assert (l + "\n")[|l| + 1..] == "";
  }

  /** Carriage returns pull the position back into text that was already read. */
  lemma CrReadsTwice(inode: int, seen: string, lines: seq<string>, tail: string)
    requires forall i :: 0 <= i < |lines| ==> RawLine(lines[i])
    requires RawLine(tail) && CrCount(lines + Rest(tail)) > 0
    ensures !ReadsOnce(At(|seen|, inode), LogOf(inode, seen, Joined(lines) + tail))
  {
    hide Scan, Joined, TokensRead, AfterCollect, Consumed, LogOf, At, Grown, CrCount;
    var unread, all := Joined(lines) + tail, lines + Rest(tail);
    var more := if tail == "" then "" else "\n";
    ScanJoined(lines, tail);
    OffsetExact(lines, tail);
    FirstCollect(inode, seen, unread);
    Completed(lines, tail);
    ScannedWhole(all);
    JoinedLength(all);
    var k := |Joined(all)| - CrCount(all);
    SuffixScans(all, k);
    SecondCollect(inode, seen, unread, more, Joined(all)[k..]);
  }

  lemma Completed(lines: seq<string>, tail: string)
    ensures Joined(lines + Rest(tail)) == Joined(lines) + tail + (if tail == "" then "" else "\n")
  {
    if tail == "" {
      assert lines + Rest(tail) == lines;
    } else {
      JoinedSnoc(lines, tail);
    }
  }

  lemma StaysSplit(inode: int, seen: string, lines: seq<string>, tail: string, more: string)
    requires var f, w := LogOf(inode, seen, Joined(lines) + tail), At(|seen|, inode);
             TokensRead(w, f) + TokensRead(AfterCollect(w, f), Grown(f, more)) != TokensRead(w, Grown(f, more))
    ensures !ReadsOnce(At(|seen|, inode), LogOf(inode, seen, Joined(lines) + tail))
  {
    hide Joined, TokensRead, AfterCollect, LogOf, At, Grown;
  }

  /**
   Exactly when reading is exactly-once: over any unread text of short lines, a
   collect and the next one read what a single one would, whatever is written in
   between, if and only if the text ends with a whole line and no line ends in a
   carriage return.
   */
  lemma ReadingExact(inode: int, seen: string, lines: seq<string>, tail: string)
    requires forall i :: 0 <= i < |lines| ==> RawLine(lines[i])
    requires RawLine(tail)
    ensures ReadsOnce(At(|seen|, inode), LogOf(inode, seen, Joined(lines) + tail)) <==>
            tail == "" && CrCount(lines) == 0
  {
    hide ReadsOnce, Joined, LogOf, At, CrCount;
    if CrCount(lines + Rest(tail)) > 0 {
      CrReadsTwice(inode, seen, lines, tail);
      assert tail == "" ==> lines + Rest(tail) == lines;
    } else if tail != "" {
      HalfReadsTwice(inode, seen, lines, tail, "x", "x\n");
      StaysSplit(inode, seen, lines, tail, "x\n");
    } else {
      assert lines + Rest(tail) == lines && Joined(lines) + tail == Joined(lines);
      WholeReadsOnce(inode, seen, lines);
    }
  }

  /**
   A half-written line whose rest arrives later is read as two fragments, and the
   first character of the rest is lost: `tail`, then everything after `c`.
   */
  lemma HalfLineSplits(inode: int, seen: string, lines: seq<string>, tail: string, c: char, rest: string, more: string)
    requires forall i :: 0 <= i < |lines| ==> RawLine(lines[i])
    requires RawLine(tail + [c] + rest) && tail != "" && CrCount(lines + [tail]) == 0
    requires more == [c] + rest + "\n"
    ensures var f, w := LogOf(inode, seen, Joined(lines) + tail), At(|seen|, inode);
            && TokensRead(w, f) == Dropped(lines) + [DropCR(tail)]
            && TokensRead(AfterCollect(w, f), Grown(f, more)) == [DropCR(rest)]
            && TokensRead(w, Grown(f, more)) == Dropped(lines) + [DropCR(tail + [c] + rest)]
  {
    hide Scan, Joined, TokensRead, AfterCollect, Consumed, LogOf, At, Grown, CrCount, DropCR, RawLine;
    var unread, whole := Joined(lines) + tail, tail + [c] + rest;
    PartsShort(tail, c, rest);
    ScanJoined(lines, tail);
    OffsetExact(lines, tail);
    FirstCollect(inode, seen, unread);
    assert Dropped(lines + [tail]) == Dropped(lines) + [DropCR(tail)];
    HalfCompleted(Joined(lines), tail, c, rest, more);
    ScanLines(lines, whole + "\n");
    ScanOneLine(whole);
    SecondCollect(inode, seen, unread, more, rest + "\n");
    ScanOneLine(rest);
  }

  lemma HalfCompleted(before: string, tail: string, c: char, rest: string, more: string)
    requires more == [c] + rest + "\n"
    ensures before + tail + more == before + (tail + [c] + rest + "\n")
    ensures (before + tail + more)[|before + tail| + 1..] == rest + "\n"
  {
  }

  lemma PartsShort(tail: string, c: char, rest: string)
    requires RawLine(tail + [c] + rest)
    ensures RawLine(tail) && RawLine(rest)
  {
    assert forall x :: x in tail || x in rest ==> x in tail + [c] + rest;
  }

  lemma ScanOneLine(l: string)
    requires RawLine(l)
    ensures Scan(l + "\n") == [DropCR(l)]
  {
    ScanStep(l, "");
    assert l + ("\n" + "") == l + "\n";
    ScanTail("");
  }

  /**
   If instead the file has not changed by the next collect, the position past its
   end is taken for a truncation and the whole file is read again.
   */
  lemma HalfLineRereads(inode: int, seen: string, lines: seq<string>, tail: string)
    requires forall i :: 0 <= i < |lines| ==> RawLine(lines[i])
    requires RawLine(tail) && tail != "" && CrCount(lines + [tail]) == 0
    ensures var f := LogOf(inode, seen, Joined(lines) + tail);
            var w := AfterCollect(At(|seen|, inode), f);
            w.pos.offset == |f.content| + 1 && TokensRead(w, f) == Scan(f.content)
  {
    hide Scan, Joined, Consumed, CrCount;
    OffsetExact(lines, tail);
    FirstCollect(inode, seen, Joined(lines) + tail);
    var f := LogOf(inode, seen, Joined(lines) + tail);
    assert f.content[0..] == f.content;
  }

  // ---- lines that fill the buffer ----

  lemma LongScans(long: string, more: string)
    requires '\n' !in long && |long| >= MAX_LINE && (more == "" || more[0] == '\n')
    ensures Scan(long + more) == []
  {
    if more == "" {
      assert long + more == long;
      Text.NoIndex(long, "\n");
    } else {
      assert long + more == long + ("\n" + more[1..]);
      Text.IndexAfterPart(long, "\n", more[1..]);
    }
  }

  /**
   A line that fills the buffer, once it is the first unread one, stops the tailer on
   this file: nothing is read and the position stays, however the file grows.
   */
  lemma LongLineStalls(inode: int, seen: string, long: string, more: string)
    requires '\n' !in long && |long| >= 1048576 && (more == "" || more[0] == '\n')
    ensures var f, w := LogOf(inode, seen, long + more), At(|seen|, inode);
            TokensRead(w, f) == [] && AfterCollect(w, f) == w
  {
    LongScans(long, more);
    FirstCollect(inode, seen, long + more);
  }

  predicate AllFit(lines: seq<string>) {
    forall i :: 0 <= i < |lines| ==> |lines[i]| < MAX_LINE
  }

  lemma FitStep(lines: seq<string>)
    requires lines != []
    ensures AllFit(lines) <==> |lines[0]| < MAX_LINE && AllFit(lines[1..])
  {
    if AllFit(lines[1..]) {
      assert forall i :: 0 < i < |lines| ==> lines[i] == lines[1..][i - 1];
    }
  }

  /** The first line is scanned as it is, or stops the scan. */
  lemma FirstLine(lines: seq<string>)
    requires lines != [] && '\n' !in lines[0] && DropCR(lines[0]) == lines[0]
    ensures Scan(Joined(lines)) == if |lines[0]| < MAX_LINE then [lines[0]] + Scan(Joined(lines[1..])) else []
  {
    hide Scan, DropCR;
    var l, more := lines[0], Joined(lines[1..]);
    assert Joined(lines) == l + ("\n" + more);
    if |l| < MAX_LINE {
      ScanStep(l, more);
    } else {
      LongScans(l, "\n" + more);
    }
  }

  lemma {:induction false} ScansAll(lines: seq<string>)
    requires forall i :: 0 <= i < |lines| ==> '\n' !in lines[i] && DropCR(lines[i]) == lines[i]
    ensures Scan(Joined(lines)) == lines <==> AllFit(lines)
  {
    if lines == [] {
      ScanTail("");
    } else {
      hide Scan, DropCR, Joined, AllFit;
      ScansAll(lines[1..]);
      FitStep(lines);
      FirstLine(lines);
      assert lines == [lines[0]] + lines[1..];
    }
  }

  /** Exactly when the length of lines does no harm: all of them are read if and only if none fills the buffer. */
  lemma LongLinesExact(inode: int, seen: string, lines: seq<string>)
    requires forall i :: 0 <= i < |lines| ==> '\n' !in lines[i] && DropCR(lines[i]) == lines[i]
    ensures TokensRead(At(|seen|, inode), LogOf(inode, seen, Joined(lines))) == lines <==>
            forall i :: 0 <= i < |lines| ==> |lines[i]| < 1048576
  {
    hide Scan, DropCR, Joined, TokensRead, LogOf, At;
    FirstCollect(inode, seen, Joined(lines));
    ScansAll(lines);
  }
}

/** Exactly-once reading over every run of appends, rotations, truncations, collects and restarts. */
module TailerRuns {
  import opened Wrappers
  import opened TailerSpec

  /**
   The current file by its lines and the half-written rest, the watcher, its saved
   position, and the history: lines of this file already read or skipped by seeding,
   whether the file was cut back since a position in it was last saved, lines
   written since the seed, lines lost unread to a rotation or a truncation, and
   connections reported per device.
   */
  datatype State = State(
    inode: int,
    lines: seq<string>,
    tail: string,
    watcher: Watcher,
    disk: Option<Pos>,
    readTo: nat,
    cut: bool,
    written: seq<string>,
    missed: seq<string>,
    reported: Key -> int)

  datatype Event =
    | Append(text: string)
    | Rotate
    | Truncate
    | Collect(now: int)
    | Restart

  /** Whole lines as Xray writes them: no newline inside, no carriage return at the end, below the buffer limit. */
  predicate WholeLine(l: string) {
    RawLine(l) && DropCR(l) == l
  }

  /** The lines of a text that are ended by a newline. */
  function Ended(text: string): seq<string> {
    if text == "" then []
    else if text[|text| - 1] == '\n' then Ended(text[..|text| - 1]) + [Half(text[..|text| - 1])]
    else Ended(text[..|text| - 1])
  }

  /** What follows the last of them. */
  function Half(text: string): string {
    if text == "" || text[|text| - 1] == '\n' then "" else Half(text[..|text| - 1]) + [text[|text| - 1]]
  }

  lemma {:induction false} EndedHalf(text: string)
    ensures Joined(Ended(text)) + Half(text) == text
  {
    if text != "" {
      var rest, last := text[..|text| - 1], text[|text| - 1];
      EndedHalf(rest);
      JoinedSnoc(Ended(rest), Half(rest));
      assert text == rest + [last];
      assert Joined(Ended(rest)) + (Half(rest) + [last]) == Joined(Ended(rest)) + Half(rest) + [last];
    }
  }

  /** The lines of the current file that no collect has read. */
  function Unread(s: State): seq<string> {
    if s.readTo <= |s.lines| then s.lines[s.readTo..] else []
  }

  function File(s: State): LogFile {
    LogFile(s.inode, Joined(s.lines) + s.tail)
  }

  /** Any text may be appended, ending in the middle of a line or not. */
  function DoAppend(s: State, text: string): State {
    s.(lines := s.lines + Ended(s.tail + text), tail := Half(s.tail + text),
       written := if s.watcher.seeded then s.written + Ended(s.tail + text) else s.written)
  }

  function Emptied(s: State, inode: int, cut: bool): State {
    s.(inode := inode, lines := [], tail := "", readTo := 0, cut := cut,
       missed := if s.watcher.seeded then s.missed + Unread(s) else s.missed)
  }

  function DoCollect(r: Rules, s: State, now: int): State
  {
    s.(watcher := AfterCollect(s.watcher, File(s)),
       disk := SavedAfter(s.watcher, s.disk, File(s)),
       readTo := |s.lines|,
       cut := s.cut && s.watcher.seeded && Unseen(s.watcher, File(s)) == "",
       reported := k => s.reported(k) + Conns(Aggregate(r, TokensRead(s.watcher, File(s)), now), k))
  }

  function Reload(disk: Option<Pos>): Watcher {
    match disk
    case Some(p) => Watcher(p, true)
    case None => Watcher(Pos(0, 0), false)
  }

  function Next(r: Rules, s: State, ev: Event): State
  {
    match ev
    case Append(text) => DoAppend(s, text)
    // A new, empty file under a fresh inode takes the log's name.
    case Rotate => Emptied(s, s.inode + 1, false)
    // The file itself is cut back to nothing.
    case Truncate => Emptied(s, s.inode, true)
    case Collect(now) => DoCollect(r, s, now)
    case Restart => s.(watcher := Reload(s.disk))
  }

  /** A file that was cut back is recognised by being shorter than the position in it. */
  predicate CutShows(s: State) {
    s.cut && s.watcher.seeded && s.watcher.pos.inode == s.inode ==>
      s.watcher.pos.offset == 0 || |File(s).content| < s.watcher.pos.offset
  }

  /**
   What each event has to respect: lines are whole once they are ended, and a collect
   finds no half-written line and no truncation that has been outgrown. ReadingExact
   and TruncationExact say that a collect needs all of it.
   */
  ghost predicate Legal(s: State, ev: Event) {
    match ev
    case Append(text) => forall l :: l in Ended(s.tail + text) ==> WholeLine(l)
    case Collect(now) => s.tail == "" && CutShows(s)
    case _ => true
  }

  ghost predicate LegalRun(r: Rules, initial: string, evs: seq<Event>) {
    forall i :: 0 <= i < |evs| ==> Legal(Run(r, Start(initial), evs[..i]), evs[i])
  }

  /** Where reading continues in the current file, given a recorded position. */
  function Effective(p: Pos, inode: int): int {
    if p.inode == inode then p.offset else 0
  }

  ghost predicate PosOk(s: State, p: Pos) {
    p.inode <= s.inode && s.readTo <= |s.lines| && (s.cut || Effective(p, s.inode) == |Joined(s.lines[..s.readTo])|)
  }

  /** Every matching line written since the seed is reported, lost, or still unread: never two of them. */
  predicate Balanced(r: Rules, s: State, k: Key)
  {
    Hits(r, s.written, k) == s.reported(k) + Hits(r, s.missed, k) +
      (if s.watcher.seeded then Hits(r, Unread(s), k) else 0)
  }

  ghost predicate Inv(r: Rules, s: State) {
    && s.readTo <= |s.lines|
    && (s.cut ==> s.readTo == 0)
    && (s.watcher.seeded ==> forall i :: s.readTo <= i < |s.lines| ==> WholeLine(s.lines[i]))
    && (s.watcher.seeded <==> s.disk.Some?)
    && (s.watcher.seeded ==> PosOk(s, s.watcher.pos) && PosOk(s, s.disk.value))
    && forall k :: Balanced(r, s, k)
  }

  /** An agent that has never read this log, whatever it already holds. */
  function Start(initial: string): State {
    State(1, Ended(initial), Half(initial), Watcher(Pos(0, 0), false), None, 0, false, [], [], k => 0)
  }

  function Run(r: Rules, s: State, evs: seq<Event>): State {
    if evs == [] then s else Next(r, Run(r, s, evs[..|evs| - 1]), evs[|evs| - 1])
  }

  // ---- one collect on whole lines ----

  lemma {:induction false} NoCr(lines: seq<string>)
    requires forall i :: 0 <= i < |lines| ==> WholeLine(lines[i])
    ensures CrCount(lines) == 0 && Dropped(lines) == lines
  {
    if lines != [] {
      NoCr(lines[..|lines| - 1]);
      assert CrOne(lines[|lines| - 1]) == 0;
    }
  }

  lemma ScannedAsWritten(lines: seq<string>)
    requires forall i :: 0 <= i < |lines| ==> WholeLine(lines[i])
    ensures Scan(Joined(lines)) == lines && Consumed(lines) == |Joined(lines)|
  {
    ScannedWhole(lines);
    NoCr(lines);
    JoinedLength(lines);
  }

  lemma Suffix(lines: seq<string>, k: nat)
    requires k <= |lines|
    ensures |Joined(lines[..k])| <= |Joined(lines)|
    ensures Joined(lines)[|Joined(lines[..k])|..] == Joined(lines[k..])
  {
    assert lines == lines[..k] + lines[k..];
    JoinedConcat(lines[..k], lines[k..]);
  }

  /** A legal collect starts at the first line that has not been read. */
  lemma CollectStarts(r: Rules, s: State)
    requires Inv(r, s) && s.watcher.seeded && s.tail == "" && CutShows(s)
    ensures StartPos(s.watcher.pos, File(s)) == Pos(|Joined(s.lines[..s.readTo])|, s.inode)
    ensures Unseen(s.watcher, File(s)) == Joined(s.lines[s.readTo..])
  {
    hide Hits, Balanced;
    Suffix(s.lines, s.readTo);
    assert File(s).content == Joined(s.lines);
    assert s.readTo == 0 ==> s.lines[..s.readTo] == [];
  }

  /** It reads exactly the remaining lines and stops at the end of the file. */
  lemma CollectReads(r: Rules, s: State)
    requires Inv(r, s) && s.watcher.seeded && s.tail == "" && CutShows(s)
    ensures TokensRead(s.watcher, File(s)) == s.lines[s.readTo..]
    ensures AfterCollect(s.watcher, File(s)).pos == Pos(|Joined(s.lines)|, s.inode)
  {
    hide Joined, Scan, Hits, Balanced, Unseen, StartPos, Consumed;
    var rest := s.lines[s.readTo..];
    Suffix(s.lines, s.readTo);
    CollectStarts(r, s);
    ScannedAsWritten(rest);
  }

  /** A collect that saves nothing had nothing to read, so the saved position is as right as it was. */
  lemma CollectSaves(r: Rules, s: State, now: int)
    requires Inv(r, s) && s.watcher.seeded && s.tail == "" && CutShows(s)
    ensures var t := DoCollect(r, s, now);
            && t.disk.Some? && PosOk(t, t.disk.value) && PosOk(t, t.watcher.pos)
            && (t.cut ==> t.readTo == 0)
  {
    hide Scan, Hits, Aggregate, Balanced, Unseen, AfterCollect, TokensRead, Conns;
    CollectReads(r, s);
    CollectStarts(r, s);
    Suffix(s.lines, s.readTo);
    assert s.lines[..|s.lines|] == s.lines;
    var t := DoCollect(r, s, now);
    assert PosOk(t, t.watcher.pos);
    if Unseen(s.watcher, File(s)) == "" {
      assert t.disk == s.disk && PosOk(s, s.disk.value);
      assert |Joined(s.lines)| == |Joined(s.lines[..s.readTo])|;
      assert t.cut ==> s.lines == [];
    } else {
      assert t.disk == Some(t.watcher.pos);
    }
  }

  lemma CollectKeeps(r: Rules, s: State, now: int)
    requires Inv(r, s) && s.tail == "" && CutShows(s)
    ensures Inv(r, DoCollect(r, s, now))
  {
    hide Joined, Scan, Hits, Aggregate, AfterCollect, TokensRead, Conns, Unseen, SavedAfter, CutShows;
    var t := DoCollect(r, s, now);
    assert s.lines[..|s.lines|] == s.lines && s.lines[|s.lines|..] == [];
    if s.watcher.seeded {
      CollectReads(r, s);
      CollectSaves(r, s, now);
    } else {
      Seeding(r, s, now);
    }
    assert t.watcher.seeded by {
      AlwaysSeeded(s);
    }
    forall k
      ensures Balanced(r, t, k)
    {
      assert Balanced(r, s, k);
      NoHits(r, now, k);
      if s.watcher.seeded {
        ConnsAreHits(r, s.lines[s.readTo..], now, k);
      }
    }
  }

  lemma AlwaysSeeded(s: State)
    ensures AfterCollect(s.watcher, File(s)).seeded
  {
  }

  lemma NoHits(r: Rules, now: int, k: Key)
    ensures Hits(r, [], k) == 0 && Conns(Aggregate(r, [], now), k) == 0
  {
  }

  /** The first collect ever takes the end of the file as its position and saves it. */
  lemma Seeding(r: Rules, s: State, now: int)
    requires !s.watcher.seeded && s.tail == ""
    ensures var t := DoCollect(r, s, now);
            && t.disk == Some(t.watcher.pos) && PosOk(t, t.watcher.pos) && !t.cut
            && TokensRead(s.watcher, File(s)) == []
  {
    assert s.lines[..|s.lines|] == s.lines;
    assert Joined(s.lines) + "" == Joined(s.lines);
  }

  lemma AppendKeeps(r: Rules, s: State, text: string)
    requires Inv(r, s) && Legal(s, Append(text))
    ensures Inv(r, DoAppend(s, text))
  {
    hide Ended, Half, Joined, Hits;
    var t, ls := DoAppend(s, text), Ended(s.tail + text);
    assert t.lines[..t.readTo] == s.lines[..s.readTo];
    assert t.lines[t.readTo..] == s.lines[s.readTo..] + ls;
    forall i | t.readTo <= i < |t.lines| && s.watcher.seeded
      ensures WholeLine(t.lines[i])
    {
      assert t.lines[i] == if i < |s.lines| then s.lines[i] else ls[i - |s.lines|];
    }
    forall k
      ensures Balanced(r, t, k)
    {
      assert Balanced(r, s, k);
      HitsConcat(r, s.lines[s.readTo..], ls, k);
      HitsConcat(r, s.written, ls, k);
    }
  }

  /** Appending to the lines is appending to the file. */
  lemma AppendGrows(s: State, text: string)
    ensures File(DoAppend(s, text)) == Grown(File(s), text)
  {
    hide Ended, Half;
    EndedHalf(s.tail + text);
    JoinedConcat(s.lines, Ended(s.tail + text));
    assert Joined(s.lines) + (s.tail + text) == Joined(s.lines) + s.tail + text;
    assert Joined(s.lines) + (Joined(Ended(s.tail + text)) + Half(s.tail + text)) ==
           Joined(s.lines) + Joined(Ended(s.tail + text)) + Half(s.tail + text);
  }

  /**
   After a rotation the log is a new file, after a truncation the same one, with nothing
   in it but what is written from then on; the lines not read before are lost.
   */
  lemma StartsAnew(r: Rules, s: State, text: string)
    ensures File(Next(r, Next(r, s, Rotate), Append(text))) == LogFile(s.inode + 1, text)
    ensures File(Next(r, Next(r, s, Truncate), Append(text))) == LogFile(s.inode, text)
    ensures forall ev :: ev == Rotate || ev == Truncate ==>
              var t := Next(r, s, ev);
              && t.watcher == s.watcher && t.disk == s.disk && t.written == s.written
              && (s.watcher.seeded && s.readTo <= |s.lines| ==> t.missed == s.missed + s.lines[s.readTo..])
  {
    hide Ended, Half;
    AppendGrows(Next(r, s, Rotate), text);
    AppendGrows(Next(r, s, Truncate), text);
    assert "" + text == text;
  }

  /** An agent that restarts reads on from the position it saved; without one it starts at the next end of file. */
  lemma RestartReadsOn(r: Rules, s: State)
    ensures var t := Next(r, s, Restart);
            && t == s.(watcher := t.watcher)
            && (s.disk.Some? ==> t.watcher == Watcher(s.disk.value, true))
            && (s.disk.None? ==> TokensRead(t.watcher, File(s)) == [] &&
                                 AfterCollect(t.watcher, File(s)) == At(|File(s).content|, s.inode))
  {
    hide Joined;
  }

  lemma EmptiedKeeps(r: Rules, s: State, inode: int, cut: bool)
    requires Inv(r, s) && if cut then inode == s.inode else s.inode < inode
    ensures Inv(r, Emptied(s, inode, cut))
  {
    hide Hits;
    var t := Emptied(s, inode, cut);
    assert t.lines[..t.readTo] == [];
    forall k
      ensures Balanced(r, t, k)
    {
      assert Balanced(r, s, k);
      HitsConcat(r, s.missed, s.lines[s.readTo..], k);
      NoHits(r, 0, k);
    }
  }

  lemma RestartKeeps(r: Rules, s: State)
    requires Inv(r, s)
    ensures Inv(r, s.(watcher := Reload(s.disk)))
  {
    hide Hits, Joined;
    var t := s.(watcher := Reload(s.disk));
    assert forall k :: Balanced(r, s, k) ==> Balanced(r, t, k);
  }

  lemma NextKeeps(r: Rules, s: State, ev: Event)
    requires Inv(r, s) && Legal(s, ev)
    ensures Inv(r, Next(r, s, ev))
  {
    hide Inv;
    match ev
    case Append(text) => AppendKeeps(r, s, text);
    case Rotate => EmptiedKeeps(r, s, s.inode + 1, false);
    case Truncate => EmptiedKeeps(r, s, s.inode, true);
    case Collect(now) => CollectKeeps(r, s, now);
    case Restart => RestartKeeps(r, s);
  }

  // ---- the theorem ----

  lemma {:induction false} InvHolds(r: Rules, initial: string, evs: seq<Event>)
    requires LegalRun(r, initial, evs)
    ensures Inv(r, Run(r, Start(initial), evs))
  {
    hide Next, Legal, Ended, Half;
    if evs == [] {
      NoneYet(r, initial);
    } else {
      var rest := evs[..|evs| - 1];
      forall i | 0 <= i < |rest|
        ensures Legal(Run(r, Start(initial), rest[..i]), rest[i])
      {
        assert rest[..i] == evs[..i];
      }
      InvHolds(r, initial, rest);
      NextKeeps(r, Run(r, Start(initial), rest), evs[|evs| - 1]);
    }
  }

  lemma NoneYet(r: Rules, initial: string)
    ensures Inv(r, Start(initial))
  {
    assert forall k :: Balanced(r, Start(initial), k);
  }

  /**
   In every run of such events, half-written lines and truncations in place included:
   the read position is a line boundary of the current file, and for every device
   the connections reported by all collects are the matching lines written after
   the seed point, minus those lost to a rotation or truncation and those not read yet.
   */
  lemma TailerExactlyOnce(r: Rules, initial: string, evs: seq<Event>, k: Key)
    requires LegalRun(r, initial, evs)
    ensures var s := Run(r, Start(initial), evs);
            s.watcher.seeded ==>
              && Hits(r, s.written, k) == s.reported(k) + Hits(r, s.missed, k) + Hits(r, Unread(s), k)
              && (s.watcher.pos.inode == s.inode && !s.cut ==>
                    exists n :: 0 <= n <= |s.lines| && s.watcher.pos.offset == |Joined(s.lines[..n])| &&
                                Unread(s) == s.lines[n..])
  {
    InvHolds(r, initial, evs);
    assert Balanced(r, Run(r, Start(initial), evs), k);
  }

  /** After a collect the reported connections account for everything written and not lost unread. */
  lemma CollectCatchesUp(r: Rules, initial: string, evs: seq<Event>, now: int, k: Key)
    requires LegalRun(r, initial, evs) && Legal(Run(r, Start(initial), evs), Collect(now))
    ensures var s := Next(r, Run(r, Start(initial), evs), Collect(now));
            && s.watcher.pos == Pos(|File(s).content|, s.inode)
            && Hits(r, s.written, k) == s.reported(k) + Hits(r, s.missed, k)
  {
    hide Run, LegalRun, Hits, Joined, Aggregate, Conns;
    var t := Run(r, Start(initial), evs);
    InvHolds(r, initial, evs);
    CollectKeeps(r, t, now);
    var s := DoCollect(r, t, now);
    assert Balanced(r, s, k) && s.lines[|s.lines|..] == [];
    NoHits(r, now, k);
    AlwaysSeeded(t);
    assert File(s) == File(t);
    if t.watcher.seeded {
      CollectReads(r, t);
      assert Joined(t.lines) + "" == Joined(t.lines);
    }
  }

  /** A new file is read from its start, wherever the position was, so a rotation also ends a stall. */
  lemma RotationResumes(offset: nat, inode: int, other: int, lines: seq<string>)
    requires other != inode && forall i :: 0 <= i < |lines| ==> WholeLine(lines[i])
    ensures var f, w := LogFile(other, Joined(lines)), At(offset, inode);
            TokensRead(w, f) == lines && AfterCollect(w, f) == At(|f.content|, other)
  {
    hide Joined, Scan, Consumed;
    ScannedAsWritten(lines);
    assert Joined(lines)[0..] == Joined(lines);
  }

  // ---- truncation in place ----

  /** What is left of whole lines, from any point on, is whole lines. */
  lemma {:induction false} SuffixLines(lines: seq<string>, k: nat) returns (rest: seq<string>)
    requires forall i :: 0 <= i < |lines| ==> WholeLine(lines[i])
    requires k <= |Joined(lines)|
    ensures forall i :: 0 <= i < |rest| ==> WholeLine(rest[i])
    ensures Joined(rest) == Joined(lines)[k..]
    decreases |lines|
  {
    if lines == [] {
      rest := [];
    } else if k <= |lines[0]| {
      rest := [lines[0][k..]] + lines[1..];
      assert rest[1..] == lines[1..];
    } else {
      rest := SuffixLines(lines[1..], k - |lines[0]| - 1);
      assert Joined(lines)[k..] == Joined(lines[1..])[k - |lines[0]| - 1..];
    }
  }

  /**
   Exactly when a truncation in place is noticed: a file that was cut back and has
   been written again under the same inode is read as written if and only if the
   position was at its start or is beyond its new end.
   */
  lemma TruncationExact(inode: int, offset: nat, lines: seq<string>)
    requires forall i :: 0 <= i < |lines| ==> WholeLine(lines[i])
    ensures TokensRead(At(offset, inode), LogFile(inode, Joined(lines))) == lines <==>
            offset == 0 || |Joined(lines)| < offset
  {
    hide Joined, Scan, Consumed;
    var content := Joined(lines);
    ScannedAsWritten(lines);
    assert content[0..] == content;
    if 0 < offset <= |content| {
      var rest := SuffixLines(lines, offset);
      ScannedAsWritten(rest);
      assert |Joined(rest)| == |content| - offset;
    }
  }

  /**
   A collect that finds a truncated file empty starts over in memory but does not
   save that: after a restart the old position skips into what was written since.
   */
  lemma EmptyTruncationForgotten(inode: int, offset: nat, lines: seq<string>)
    requires forall i :: 0 <= i < |lines| ==> WholeLine(lines[i])
    requires 0 < offset <= |Joined(lines)|
    ensures var empty, w, f := LogFile(inode, ""), At(offset, inode), LogFile(inode, Joined(lines));
            && TokensRead(AfterCollect(w, empty), f) == lines
            && TokensRead(Reload(SavedAfter(w, Some(w.pos), empty)), f) != lines
  {
    hide Joined, Scan, Consumed, TokensRead, AfterCollect;
    var empty, w := LogFile(inode, ""), At(offset, inode);
    StartsOver(empty, offset);
    TruncationExact(inode, offset, lines);
    TruncationExact(inode, 0, lines);
  }

  /** On an empty file a collect goes back to the start, and saves nothing. */
  lemma StartsOver(f: LogFile, offset: nat)
    requires f.content == "" && 0 < offset
    ensures var w := At(offset, f.inode);
            AfterCollect(w, f) == At(0, f.inode) && Reload(SavedAfter(w, Some(w.pos), f)) == w
  {
    hide Scan, Consumed;
    var w := At(offset, f.inode);
    NothingScans();
    assert StartPos(w.pos, f) == Pos(0, f.inode);
    assert Unseen(w, f) == f.content;
  }
}

/** The watcher as the object the source updates in place. */
module TailerWatcher {
  import opened Wrappers
  import opened TailerSpec

  class AccessWatcher {
    const durable: bool
    var offset: nat
    var inode: int
    var seeded: bool
    var state: Option<Pos>      // the saved read position

    ghost function View(): Watcher
      reads this
    {
      Watcher(Pos(offset, inode), seeded)
    }

    /** Picks up the saved position, if there is one. */
    constructor (durable: bool, state: Option<Pos>)
      ensures this.durable == durable && this.state == state
      ensures View() == if durable && state.Some? then Watcher(state.value, true) else Watcher(Pos(0, 0), false)
    {
      this.durable, this.state := durable, state;
      offset, inode, seeded := 0, 0, false;
      if durable && state.Some? {
        offset, inode, seeded := state.value.offset, state.value.inode, true;
      }
    }

    method SaveOffset()
      modifies this`state
      ensures state == if durable then Some(Pos(offset, inode)) else old(state)
    {
      if durable {
        state := Some(Pos(offset, inode));
      }
    }

    /** Reads the new lines of the log and reports the devices they show; `None` is a log that cannot be read. */
    method Collect(r: Rules, file: Option<LogFile>, now: int) returns (devices: map<Key, Device>)
      modifies this
      ensures file.None? ==> devices == map[] && View() == old(View()) && state == old(state)
      ensures file.Some? ==> View() == AfterCollect(old(View()), file.value)
      ensures file.Some? ==> devices == Aggregate(r, TokensRead(old(View()), file.value), now)
      ensures file.Some? && durable ==> state == SavedAfter(old(View()), old(state), file.value)
    {
      assert Scan("") == [];
      hide Scan;
      if file.None? {
        return map[];
      }
      var f := file.value;
      ghost var was := View();
      if !seeded {
        offset, inode, seeded := |f.content|, f.inode, true;
        SaveOffset();
        return map[];
      }
      if f.inode != inode {
        offset, inode := 0, f.inode;
      }
      if |f.content| < offset {
        offset := 0;
      }
      assert offset == StartPos(was.pos, f).offset && inode == f.inode;
      if |f.content| == offset {
        assert TokensRead(was, f) == [];
        return map[];
      }
      var tokens := Scan(f.content[offset..]);
      var read: nat := 0;
      devices := map[];
      for i := 0 to |tokens|
        invariant read == Consumed(tokens[..i])
        invariant devices == Aggregate(r, tokens[..i], now)
      {
        assert tokens[..i + 1][..i] == tokens[..i];
        var line := tokens[i];
        read := read + |line| + 1;
        var hit := r.parse(line);
        if hit.None? {
          continue;
        }
        if hit.value.key.email == "" || hit.value.key.email == "unknown" {
          continue;
        }
        var d := if hit.value.key in devices then devices[hit.value.key] else Device(hit.value.kind, 0, 0);
        d := d.(conns := d.conns + 1, kind := hit.value.kind);
        var ts := LineTime(r, line, now);
        if ts > d.lastSeen {
          d := d.(lastSeen := ts);
        }
        devices := devices[hit.value.key := d];
      }
      assert tokens[..|tokens|] == tokens;
      offset := offset + read;
      SaveOffset();
    }
  }
}
