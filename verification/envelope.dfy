/**
 The common envelope of a server console line, `ServerEvent` in mc.py:
 `[hh:mm:ss] [thread/level]: message`, recognised by the pattern
 `^\[(\d{2}:\d{2}:\d{2})\] \[([^/]+)/([^\]]+)\]: (.*)$` under `re.match`.
 */
module LogEnvelope {
  import opened Wrappers
  import opened Text

  /** The fields a parsed line carries; `source` is the whole line as read. */
  datatype Envelope = Envelope(source: string, time: string, thread: string, level: string, message: string)

  /** `\d{2}:\d{2}:\d{2}`: the shape of a clock time, with no range check. */
  predicate IsClock(t: string) {
    && |t| == 8
    && IsDigit(t[0]) && IsDigit(t[1]) && t[2] == ':'
    && IsDigit(t[3]) && IsDigit(t[4]) && t[5] == ':'
    && IsDigit(t[6]) && IsDigit(t[7])
  }

  /** `[^/]+`: what the thread group can hold. */
  predicate IsThread(s: string) {
    |s| > 0 && '/' !in s
  }

  /** `[^\]]+`: what the level group can hold. */
  predicate IsLevel(s: string) {
    |s| > 0 && ']' !in s
  }

  /** Four strings that the pattern can capture together; `(.*)` never takes a newline. */
  predicate Capturable(time: string, thread: string, level: string, message: string) {
    IsClock(time) && IsThread(thread) && IsLevel(level) && '\n' !in message
  }

  /** The line layout the envelope pattern describes. */
  function Layout(time: string, thread: string, level: string, message: string): string {
    "[" + time + "] [" + thread + "/" + level + "]: " + message
  }

  /** A line the pattern accepts: the layout, optionally followed by the newline `readline` keeps. */
  ghost predicate IsLogLine(line: string) {
    exists time, thread, level, message :: Capturable(time, thread, level, message) &&
      (line == Layout(time, thread, level, message) || line == Layout(time, thread, level, message) + "\n")
  }

  /**
   The message group `(.*)$` applied to what follows `]: `: `.` stops at a
   newline and `$` also matches in front of a newline that ends the string.
   */
  function MessageOf(rest: string): (r: Option<string>)
    ensures r.Some? ==> '\n' !in r.value && (rest == r.value || rest == r.value + "\n")
  {
    match FirstIndex(rest, IsNewline, 0)
    case None => Some(rest)
    case Some(k) =>
      if k == |rest| - 1 then
        assert rest == rest[..k] + "\n";
        Some(rest[..k])
      else None
  }

  /** Conversely, a message without a newline is taken whole, with or without one newline after it. */
  lemma MessageOfAccepts(message: string, newline: bool)
    requires '\n' !in message
    ensures MessageOf(message + (if newline then "\n" else "")) == Some(message)
  {
    var rest := message + (if newline then "\n" else "");
    if newline {
      assert rest[|message|] == '\n';
      forall j | 0 <= j < |message| ensures !IsNewline(rest[j]) {
        assert rest[j] == message[j];
      }
      FirstIndexAt(rest, IsNewline, 0, |message|);
      assert rest[..|message|] == message;
    } else {
      assert rest == message;
    }
  }

  predicate IsNewline(c: char) { c == '\n' }

  predicate IsSlash(c: char) { c == '/' }

  predicate IsCloseBracket(c: char) { c == ']' }

  /** The fixed head `[hh:mm:ss] [` of a log line. */
  predicate HasHead(line: string) {
    |line| >= 12 && line[0] == '[' && IsClock(line[1..9]) && line[9..12] == "] ["
  }

  /**
   The cuts the envelope pattern makes in `line`: the thread ends at the
   first `/` after the head, the level at the first `]` after that, `]: `
   follows, and the message group accepts the rest.
   */
  predicate CutsAt(line: string, k: nat, e: nat, message: string) {
    && HasHead(line) && 12 < k && k + 1 < e && e + 3 <= |line|
    && FirstIndex(line, IsSlash, 12) == Some(k)
    && FirstIndex(line, IsCloseBracket, k + 1) == Some(e)
    && line[e..e + 3] == "]: " && MessageOf(line[e + 3..]) == Some(message)
  }

  /** `ServerEvent.__init__`: the envelope of `line`, or `None` where mc.py raises `LogParseError`. */
  function Parse(line: string): (r: Option<Envelope>)
    ensures r.Some? ==> r.value.source == line
    ensures r.Some? ==> Capturable(r.value.time, r.value.thread, r.value.level, r.value.message)
  {
    if !HasHead(line) then None
    else
      match FirstIndex(line, IsSlash, 12)
      case None => None
      case Some(k) =>
        if k == 12 then None
        else
          match FirstIndex(line, IsCloseBracket, k + 1)
          case None => None
          case Some(e) =>
            if |line| < e + 3 || e == k + 1 || line[e..e + 3] != "]: " then None
            else
              match MessageOf(line[e + 3..])
              case None => None
              case Some(message) =>
                CutsGiveLayout(line, k, e, message);
                Some(Envelope(line, line[1..9], line[12..k], line[k + 1..e], message))
  }

  /** An accepted line is the layout of the pieces `Parse` reports, perhaps with the newline after it. */
  lemma ParseLaysOut(line: string)
    ensures Parse(line).Some? ==> var e := Parse(line).value;
      line == Layout(e.time, e.thread, e.level, e.message) || line == Layout(e.time, e.thread, e.level, e.message) + "\n"
  {
    if Parse(line).Some? {
      var k, e, message := ParseFindsCuts(line);
      CutsGiveLayout(line, k, e, message);
    }
  }

  /** Where `Parse` cut an accepted line. */
  lemma ParseFindsCuts(line: string) returns (k: nat, e: nat, message: string)
    requires Parse(line).Some?
    ensures CutsAt(line, k, e, message)
    ensures Parse(line).value == Envelope(line, line[1..9], line[12..k], line[k + 1..e], message)
  {
    var slash := FirstIndex(line, IsSlash, 12);
    assert HasHead(line) && slash.Some? && slash.value != 12;
    k := slash.value;
    var bracket := FirstIndex(line, IsCloseBracket, k + 1);
    assert bracket.Some?;
    e := bracket.value;
    assert e + 3 <= |line| && e != k + 1 && line[e..e + 3] == "]: ";
    var rest := MessageOf(line[e + 3..]);
    assert rest.Some?;
    message := rest.value;
  }

  /** The pieces `Parse` cuts out of an accepted line are capturable and lay the line out again. */
  lemma CutsGiveLayout(line: string, k: nat, e: nat, message: string)
    requires CutsAt(line, k, e, message)
    ensures Capturable(line[1..9], line[12..k], line[k + 1..e], message)
    ensures line == Layout(line[1..9], line[12..k], line[k + 1..e], message)
         || line == Layout(line[1..9], line[12..k], line[k + 1..e], message) + "\n"
  {
    assert && (forall j :: 12 <= j < k ==> line[j] != '/')
           && (forall j :: k + 1 <= j < e ==> line[j] != ']')
           && line[k] == '/'
           && '\n' !in message && (line[e + 3..] == message || line[e + 3..] == message + "\n")
    by {
      assert forall j :: 12 <= j < k ==> !IsSlash(line[j]);
      assert forall j :: k + 1 <= j < e ==> !IsCloseBracket(line[j]);
    }
    PiecesGiveLayout(line, k, e, message);
  }

  /** The same, from what the cuts say about the characters of the line. */
  lemma PiecesGiveLayout(line: string, k: nat, e: nat, message: string)
    requires HasHead(line) && 12 < k < e - 1 && e + 3 <= |line| && line[k] == '/' && line[e..e + 3] == "]: "
    requires forall j :: 12 <= j < k ==> line[j] != '/'
    requires forall j :: k + 1 <= j < e ==> line[j] != ']'
    requires '\n' !in message && (line[e + 3..] == message || line[e + 3..] == message + "\n")
    ensures Capturable(line[1..9], line[12..k], line[k + 1..e], message)
    ensures line == Layout(line[1..9], line[12..k], line[k + 1..e], message)
         || line == Layout(line[1..9], line[12..k], line[k + 1..e], message) + "\n"
  {
    var time, thread, level := line[1..9], line[12..k], line[k + 1..e];
    assert '/' !in thread by {
      forall i | 0 <= i < |thread| ensures thread[i] != '/' {
        assert thread[i] == line[12 + i];
      }
    }
    assert ']' !in level by {
      forall i | 0 <= i < |level| ensures level[i] != ']' {
        assert level[i] == line[k + 1 + i];
      }
    }
    assert line == line[..1] + time + line[9..12] + thread + line[k..k + 1] + level + line[e..e + 3] + line[e + 3..];
    assert line[..1] == "[" && line[k..k + 1] == "/";
  }

  /** Where the pieces of a laid-out line sit. */
  lemma LayoutPieces(time: string, thread: string, level: string, rest: string, k: nat, e: nat)
    requires |time| == 8 && k == 12 + |thread| && e == k + 1 + |level|
    ensures var line := Layout(time, thread, level, rest);
      && |line| == e + 3 + |rest|
      && line[0] == '[' && line[1..9] == time && line[9..12] == "] ["
      && line[12..k] == thread && line[k] == '/' && line[k + 1..e] == level
      && line[e..e + 3] == "]: " && line[e] == ']' && line[e + 3..] == rest
  {
    var line := Layout(time, thread, level, rest);
    var head := "[" + time + "] [";
    var mid := thread + "/" + level + "]: ";
    assert line == head + mid + rest;
    assert |head| == 12;
    assert (head + mid + rest)[..12] == head;
    assert line[1..9] == head[1..9];
    assert line[9..12] == head[9..12];
    assert line[12..e + 3] == mid;
    assert mid[..|thread|] == thread && mid[|thread|] == '/';
    assert mid[|thread| + 1..|thread| + 1 + |level|] == level;
    assert mid[|thread| + 1 + |level|..] == "]: ";
    assert line[e] == mid[|thread| + 1 + |level|] == "]: "[0];
  }

  /** The first `/` after the opening bracket ends the thread. */
  lemma LayoutSlash(time: string, thread: string, level: string, rest: string, k: nat, e: nat)
    requires |time| == 8 && '/' !in thread && k == 12 + |thread| && e == k + 1 + |level|
    ensures FirstIndex(Layout(time, thread, level, rest), IsSlash, 12) == Some(k)
  {
    var line := Layout(time, thread, level, rest);
    LayoutPieces(time, thread, level, rest, k, e);
    forall j | 12 <= j < k ensures !IsSlash(line[j]) {
      assert line[j] == line[12..k][j - 12];
    }
    FirstIndexAt(line, IsSlash, 12, k);
  }

  /** The first `]` after the slash ends the level. */
  lemma LayoutBracket(time: string, thread: string, level: string, rest: string, k: nat, e: nat)
    requires |time| == 8 && ']' !in level && k == 12 + |thread| && e == k + 1 + |level|
    ensures FirstIndex(Layout(time, thread, level, rest), IsCloseBracket, k + 1) == Some(e)
  {
    var line := Layout(time, thread, level, rest);
    LayoutPieces(time, thread, level, rest, k, e);
    forall j | k + 1 <= j < e ensures !IsCloseBracket(line[j]) {
      assert line[j] == line[k + 1..e][j - (k + 1)];
    }
    FirstIndexAt(line, IsCloseBracket, k + 1, e);
  }

  /** A laid-out line parses to its pieces whenever the message group takes `message` from what follows `]: `. */
  lemma ParseLayoutRest(time: string, thread: string, level: string, rest: string, message: string)
    requires IsClock(time) && IsThread(thread) && IsLevel(level)
    requires MessageOf(rest) == Some(message)
    ensures Parse(Layout(time, thread, level, rest)) == Some(Envelope(Layout(time, thread, level, rest), time, thread, level, message))
  {
    var line := Layout(time, thread, level, rest);
    var k := 12 + |thread|;
    var e := k + 1 + |level|;
    assert HasHead(line) && e + 3 <= |line| && line[e..e + 3] == "]: " && line[e + 3..] == rest
        && line[1..9] == time && line[12..k] == thread && line[k + 1..e] == level by {
      LayoutPieces(time, thread, level, rest, k, e);
    }
    assert FirstIndex(line, IsSlash, 12) == Some(k) by {
      LayoutSlash(time, thread, level, rest, k, e);
    }
    assert FirstIndex(line, IsCloseBracket, k + 1) == Some(e) by {
      LayoutBracket(time, thread, level, rest, k, e);
    }
    ParseCuts(line, k, e, time, thread, level, message);
  }

  /** `Parse` accepts a line once each of its cuts is found where expected. */
  lemma ParseCuts(line: string, k: nat, e: nat, time: string, thread: string, level: string, message: string)
    requires CutsAt(line, k, e, message)
    requires line[1..9] == time && line[12..k] == thread && line[k + 1..e] == level
    ensures Parse(line) == Some(Envelope(line, time, thread, level, message))
  {
  }

  /** Every line of the described layout parses, to exactly the four pieces it was built from. */
  lemma ParseLayout(time: string, thread: string, level: string, message: string, newline: bool)
    requires Capturable(time, thread, level, message)
    ensures var line := Layout(time, thread, level, message) + (if newline then "\n" else "");
      Parse(line) == Some(Envelope(line, time, thread, level, message))
  {
    var rest := message + (if newline then "\n" else "");
    assert Layout(time, thread, level, rest) == Layout(time, thread, level, message) + (if newline then "\n" else "");
    MessageOfAccepts(message, newline);
    ParseLayoutRest(time, thread, level, rest, message);
  }

  /** The pattern accepts a line exactly when it has the layout; otherwise mc.py raises. */
  lemma ParseAcceptsExactlyLogLines(line: string)
    ensures Parse(line).Some? <==> IsLogLine(line)
  {
    ParseLaysOut(line);
    if IsLogLine(line) {
      var time, thread, level, message :| Capturable(time, thread, level, message) &&
        (line == Layout(time, thread, level, message) || line == Layout(time, thread, level, message) + "\n");
      if line == Layout(time, thread, level, message) {
        ParseLayout(time, thread, level, message, false);
        assert line == Layout(time, thread, level, message) + "";
      } else {
        ParseLayout(time, thread, level, message, true);
      }
    }
  }
}
