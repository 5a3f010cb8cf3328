/** The state and the pure helpers of `ChronicleLogger` (src/utils/logger.js): ANSI colour stripping,
    line formatting, level filtering, colour choice for HTTP and guardian lines, box padding, and the
    session-log file with its line counter and rotation. Console output, the clock, the caller's file
    name and `util.format` are inputs here (`Ambient`, `args`). */
module Logger {
  import opened Wrappers
  import opened Text

  const Esc: char := '\U{1B}'

  /** The colour sequence `ESC [ params m`. */
  function Sgr(params: string): string {
    [Esc, '['] + params + ['m']
  }

  const Reset: string := Sgr("0")
  const Bright: string := Sgr("1")
  const Red: string := Sgr("31")
  const Green: string := Sgr("32")
  const Yellow: string := Sgr("33")
  const Blue: string := Sgr("34")
  const Magenta: string := Sgr("35")
  const Cyan: string := Sgr("36")
  const Gray: string := Sgr("90")
  const TwitchPurple: string := Sgr("38;5;99")

  // ---------------------------------------------------------------------------
  // ANSI stripping: the pattern `ESC [ [0-9;]* m`, replaced globally by ""

  predicate IsParamChar(c: char) {
    '0' <= c <= '9' || c == ';'
  }

  /** The length of the longest prefix of `s` made of digits and `;`. */
  function ParamRun(s: string): (n: nat)
    ensures n <= |s|
    ensures forall k :: 0 <= k < n ==> IsParamChar(s[k])
    ensures n < |s| ==> !IsParamChar(s[n])
    decreases |s|
  {
    if |s| == 0 || !IsParamChar(s[0]) then 0 else 1 + ParamRun(s[1..])
  }

  /** The length of the match of the pattern at the start of `s`, if there is one. The parameter
      class excludes `m`, so a match has one possible length. */
  function SgrLength(s: string): (r: Option<nat>)
    ensures r.Some? ==> 3 <= r.value <= |s| && s[0] == Esc && s[1] == '[' && s[r.value - 1] == 'm'
    ensures r.Some? ==> forall k :: 2 <= k < r.value - 1 ==> IsParamChar(s[k])
  {
    if |s| >= 2 && s[0] == Esc && s[1] == '[' then
      var n := ParamRun(s[2..]);
      if 2 + n < |s| && s[2 + n] == 'm' then Some(3 + n) else None
    else None
  }

  /** Every string of the form `ESC [ params m` is matched at its start, with its full length. */
  lemma SgrLengthComplete(s: string, n: nat)
    requires 3 <= n <= |s| && s[0] == Esc && s[1] == '[' && s[n - 1] == 'm'
    requires forall k :: 2 <= k < n - 1 ==> IsParamChar(s[k])
    ensures SgrLength(s) == Some(n)
  {
    var p := ParamRun(s[2..]);
    assert forall k :: 0 <= k < n - 3 ==> IsParamChar(s[2..][k]);
    assert !IsParamChar(s[2..][n - 3]);
  }

  /** `Sgr(params)` is one colour sequence whenever its parameters are digits and `;`. */
  lemma SgrIsSgr(params: string)
    requires ValidParams(params)
    ensures IsSgr(Sgr(params))
  {
    var c := Sgr(params);
    assert forall k :: 2 <= k < |c| - 1 ==> c[k] == params[k - 2];
    SgrLengthComplete(c, |c|);
  }

  /** The pattern matches nowhere in `s`. */
  predicate NoSgr(s: string) {
    forall i :: 0 <= i < |s| ==> SgrLength(s[i..]).None?
  }

  /** `s` is exactly one colour sequence. */
  predicate IsSgr(s: string) {
    SgrLength(s) == Some(|s|)
  }

  /** `s.replace(/\x1b\[[0-9;]*m/g, '')` as written: one left-to-right pass that removes each match
      and resumes scanning after it. */
  function StripOnce(s: string): (r: string)
    ensures |r| <= |s|
    decreases |s|
  {
    if |s| == 0 then ""
    else match SgrLength(s)
      case Some(n) => StripOnce(s[n..])
      case None => [s[0]] + StripOnce(s[1..])
  }

  /** A pass either removes something or finds nothing to remove. */
  lemma {:induction false} StripOnceShrinksOrFixes(s: string)
    ensures |StripOnce(s)| < |s| || (StripOnce(s) == s && NoSgr(s))
    decreases |s|
  {
    if |s| > 0 && SgrLength(s).None? {
      StripOnceShrinksOrFixes(s[1..]);
      if StripOnce(s[1..]) == s[1..] && NoSgr(s[1..]) {
        assert StripOnce(s) == [s[0]] + s[1..] == s;
        forall i | 0 < i < |s|
          ensures SgrLength(s[i..]).None?
        {
          assert s[i..] == s[1..][i - 1..];
        }
        assert s[0..] == s;
      }
    }
  }

  /** A pass over a text without matches changes nothing. */
  lemma {:induction false} StripOnceOfClean(s: string)
    ensures NoSgr(s) ==> StripOnce(s) == s
    decreases |s|
  {
    if |s| > 0 && NoSgr(s) {
      assert s[0..] == s;
      assert NoSgr(s[1..]) by {
        forall i | 0 <= i < |s[1..]|
          ensures SgrLength(s[1..][i..]).None?
        {
          assert s[1..][i..] == s[i + 1..];
        }
      }
      StripOnceOfClean(s[1..]);
    }
  }

  /** A text without escape characters holds no colour sequence. */
  lemma EscFreeIsClean(s: string)
    requires Esc !in s
    ensures NoSgr(s)
  {
    forall i | 0 <= i < |s|
      ensures SgrLength(s[i..]).None?
    {
      assert s[i..][0] == s[i];
    }
  }

  /** Colour stripping as intended: passes are repeated until nothing matches. */
  function StripAnsi(s: string): (r: string)
    ensures NoSgr(r)
    ensures |r| <= |s|
    ensures NoSgr(s) ==> r == s
    decreases |s|
  {
    StripOnceShrinksOrFixes(s);
    StripOnceOfClean(s);
    var t := StripOnce(s);
    if |t| < |s| then StripAnsi(t) else t
  }

  /** When one pass leaves nothing to remove, the repeated stripping stops after it. */
  lemma StripAnsiAfterClean(s: string)
    requires NoSgr(StripOnce(s))
    ensures StripAnsi(s) == StripOnce(s)
  {
  }

  /** The single pass can leave a colour sequence behind: removing an inner sequence joins an
      escape character before it with the text after it. */
  lemma StripOnceLeavesSequence()
    ensures var s := [Esc, Esc, '[', 'm', '[', 'm'];
      StripOnce(s) == [Esc, '[', 'm'] && !NoSgr(StripOnce(s)) && StripAnsi(s) == ""
  {
    var s := [Esc, Esc, '[', 'm', '[', 'm'];
    var t := [Esc, '[', 'm'];
    PassOverSample();
    LeftoverIsSgr();
    assert !NoSgr(t) by {
      assert t[0..] == t;
    }
    assert StripAnsi(t) == "" by {
      assert StripAnsi("") == "";
    }
  }

  /** The one pass over the sample removes the inner sequence only. */
  lemma PassOverSample()
    ensures StripOnce([Esc, Esc, '[', 'm', '[', 'm']) == [Esc, '[', 'm']
  {
    var s := [Esc, Esc, '[', 'm', '[', 'm'];
    var u := ['[', 'm'];
    assert StripOnce(u) == u by {
      assert SgrLength(u).None? && SgrLength(u[1..]).None?;
      assert u[1..][1..] == [];
    }
    assert StripOnce(s[1..]) == u by {
      assert ParamRun(s[1..][2..]) == 0;
      assert SgrLength(s[1..]) == Some(3);
      assert s[1..][3..] == u;
    }
    assert SgrLength(s).None?;
    assert [Esc] + u == [Esc, '[', 'm'];
  }

  /** What the pass leaves is itself a colour sequence, removed by a second pass. */
  lemma LeftoverIsSgr()
    ensures SgrLength([Esc, '[', 'm']) == Some(3) && StripOnce([Esc, '[', 'm']) == ""
  {
    var t := [Esc, '[', 'm'];
    assert ParamRun(t[2..]) == 0;
    assert t[3..] == [];
  }

  /** An escape-free prefix passes through a pass unchanged. */
  lemma {:induction false} StripPlainPrefix(x: string, y: string)
    requires Esc !in x
    ensures StripOnce(x + y) == x + StripOnce(y)
    decreases |x|
  {
    if |x| == 0 {
      assert x + y == y && x + StripOnce(y) == StripOnce(y);
    } else {
      var t := x[1..];
      assert StripOnce(x + y) == [x[0]] + StripOnce(t + y) by {
        assert (x + y)[0] == x[0] && x[0] != Esc;
        assert SgrLength(x + y).None?;
        assert (x + y)[1..] == t + y;
      }
      StripPlainPrefix(t, y);
      assert x == [x[0]] + t;
      Assoc([x[0]], t, StripOnce(y));
    }
  }

  lemma StripPlain(x: string)
    requires Esc !in x
    ensures StripOnce(x) == x
  {
    StripPlainPrefix(x, "");
    assert x + "" == x;
    assert "" + x == x;
  }

  lemma ParamRunExtends(a: string, b: string)
    requires ParamRun(a) < |a|
    ensures ParamRun(a + b) == ParamRun(a)
    decreases |a|
  {
    if 0 < |a| && IsParamChar(a[0]) {
      assert (a + b)[1..] == a[1..] + b;
      ParamRunExtends(a[1..], b);
    }
  }

  /** A complete colour sequence at the front is removed, whatever follows it. */
  lemma StripCode(c: string, y: string)
    requires IsSgr(c)
    ensures StripOnce(c + y) == StripOnce(y)
  {
    assert (c + y)[2..] == c[2..] + y;
    ParamRunExtends(c[2..], y);
    assert SgrLength(c + y) == Some(|c|);
    assert (c + y)[|c|..] == y;
  }

  /** Parameters made of digits and `;` only. */
  predicate ValidParams(params: string) {
    forall k :: 0 <= k < |params| ==> IsParamChar(params[k])
  }

  /** A colour `log` may be given: one colour sequence, or bright followed by green as `success` uses. */
  ghost predicate IsColour(c: string) {
    (exists params :: ValidParams(params) && c == Sgr(params)) || c == Bright + Green
  }

  /** A colour sequence at the front is removed by one pass. */
  lemma StripSgr(params: string, y: string)
    requires ValidParams(params)
    ensures StripOnce(Sgr(params) + y) == StripOnce(y)
  {
    SgrIsSgr(params);
    StripCode(Sgr(params), y);
  }

  lemma StripBrightGreen(y: string)
    ensures StripOnce(Bright + Green + y) == StripOnce(y)
  {
    assert Bright + Green + y == Bright + (Green + y);
    StripSgr("1", Green + y);
    StripSgr("32", y);
  }

  /** Any colour at the front is removed by one pass. */
  lemma StripColour(c: string, y: string)
    requires IsColour(c)
    ensures StripOnce(c + y) == StripOnce(y)
  {
    if c == Bright + Green {
      StripBrightGreen(y);
    } else {
      var params :| ValidParams(params) && c == Sgr(params);
      StripSgr(params, y);
    }
  }

  // ---------------------------------------------------------------------------
  // formatting

  /** `${gray}[${fileName}]${reset} ` for a non-empty file name. */
  function FilePart(fileName: string): string {
    if fileName != "" then Gray + ("[" + fileName + "]" + (Reset + " ")) else ""
  }

  /** `formatMessage(level, message, color, fileName)` with the clock reading `timestamp`; the
      template's pieces are grouped from the right. */
  function FormatMessage(level: string, message: string, color: string, fileName: string, timestamp: string): (r: string)
    ensures EndsWith(r, " | " + message)
    ensures fileName == "" ==> |r| >= |Gray| && r[..|Gray|] == Gray
    ensures fileName != "" ==> |r| >= |Gray| + |fileName| + 2 && r[..|Gray| + 1 + |fileName| + 1] == Gray + "[" + fileName + "]"
  {
    FormatShape(FilePart(fileName), fileName, Gray + ("[" + timestamp + "]" + (Reset + (" " + (color + ("[" + level + "]" + Reset))))), message);
    FilePart(fileName)
      + (Gray + ("[" + timestamp + "]" + (Reset + (" " + (color + ("[" + level + "]" + (Reset + (" | " + message))))))))
  }

  /** The formatted line is the file part, then a gray colour, and it ends with the message. */
  lemma FormatShape(fp: string, fileName: string, mid: string, message: string)
    requires fp == FilePart(fileName) && |mid| >= |Gray| && mid[..|Gray|] == Gray
    ensures EndsWith(fp + (mid + (" | " + message)), " | " + message)
    ensures var r := fp + (mid + (" | " + message));
      (fileName == "" ==> |r| >= |Gray| && r[..|Gray|] == Gray)
      && (fileName != "" ==> |r| >= |Gray| + |fileName| + 2 && r[..|Gray| + 1 + |fileName| + 1] == Gray + "[" + fileName + "]")
  {
    var tail := " | " + message;
    SuffixAfter(fp + mid, tail);
    assert fp + (mid + tail) == (fp + mid) + tail;
    var r := fp + (mid + tail);
    if fileName != "" {
      var pre := Gray + "[" + fileName + "]";
      assert fp == pre + (Reset + " ");
      assert r == pre + ((Reset + " ") + (mid + tail));
      assert r[..|pre|] == pre;
    } else {
      assert r == mid + tail;
    }
  }

  /** The text after a prefix ends the whole. */
  lemma SuffixAfter(a: string, b: string)
    ensures EndsWith(a + b, b)
  {
    assert (a + b)[|a + b| - |b|..] == b;
  }

  /** The same line without colours. */
  function PlainFormat(level: string, message: string, fileName: string, timestamp: string): string {
    (if fileName != "" then "[" + fileName + "]" + " " else "")
      + ("[" + timestamp + "]" + (" " + ("[" + level + "]" + (" | " + message))))
  }

  lemma Assoc(a: string, b: string, c: string)
    ensures (a + b) + c == a + (b + c)
  {
  }

  lemma ResetIsColour()
    ensures IsColour(Reset)
  {
    assert ValidParams("0") && Reset == Sgr("0");
  }

  lemma GrayIsColour()
    ensures IsColour(Gray)
  {
    assert ValidParams("90") && Gray == Sgr("90");
  }

  /** Plain text followed by a colour: the text is kept and the colour dropped. */
  lemma StripPlainColour(x: string, c: string, y: string)
    requires Esc !in x && IsColour(c)
    ensures StripOnce(x + (c + y)) == x + StripOnce(y)
  {
    StripPlainPrefix(x, c + y);
    StripColour(c, y);
  }

  /** `[text]` holds no escape when `text` holds none. */
  lemma Bracketed(text: string)
    requires Esc !in text
    ensures Esc !in "[" + text + "]"
  {
  }

  lemma StripLineRest(level: string, message: string, color: string, timestamp: string)
    requires Esc !in level && Esc !in message && Esc !in timestamp
    requires IsColour(color)
    ensures StripOnce(Gray + ("[" + timestamp + "]" + (Reset + (" " + (color + ("[" + level + "]" + (Reset + (" | " + message))))))))
      == "[" + timestamp + "]" + (" " + ("[" + level + "]" + (" | " + message)))
  {
    var tail := " | " + message;
    var lv := "[" + level + "]";
    var ts := "[" + timestamp + "]";
    Bracketed(level);
    Bracketed(timestamp);
    ResetIsColour();
    GrayIsColour();
    StripPlain(tail);
    var r1 := lv + (Reset + tail);
    StripPlainColour(lv, Reset, tail);
    var r2 := " " + (color + r1);
    StripPlainColour(" ", color, r1);
    StripPlainColour(ts, Reset, r2);
    StripColour(Gray, ts + (Reset + r2));
  }

  lemma StripFilePart(fileName: string, rest: string)
    requires Esc !in fileName && fileName != ""
    ensures StripOnce(FilePart(fileName) + rest) == "[" + fileName + "]" + (" " + StripOnce(rest))
  {
    var fp := "[" + fileName + "]";
    Bracketed(fileName);
    ResetIsColour();
    GrayIsColour();
    Assoc(Gray, fp + (Reset + " "), rest);
    Assoc(fp, Reset + " ", rest);
    Assoc(Reset, " ", rest);
    StripPlainPrefix(" ", rest);
    StripPlainColour(fp, Reset, " " + rest);
    StripColour(Gray, fp + (Reset + (" " + rest)));
  }

  /** For escape-free parts, one pass over the formatted line leaves exactly the plain line. */
  lemma FormatStripsOnce(level: string, message: string, color: string, fileName: string, timestamp: string)
    requires Esc !in level && Esc !in message && Esc !in fileName && Esc !in timestamp
    requires IsColour(color)
    ensures StripOnce(FormatMessage(level, message, color, fileName, timestamp)) == PlainFormat(level, message, fileName, timestamp)
  {
    var rest := Gray + ("[" + timestamp + "]" + (Reset + (" " + (color + ("[" + level + "]" + (Reset + (" | " + message)))))));
    var plain := "[" + timestamp + "]" + (" " + ("[" + level + "]" + (" | " + message)));
    StripLineRest(level, message, color, timestamp);
    if fileName == "" {
      assert FilePart(fileName) + rest == rest;
    } else {
      StripFilePart(fileName, rest);
      Assoc("[" + fileName + "]", " ", plain);
    }
  }

  lemma PlainFormatEscFree(level: string, message: string, fileName: string, timestamp: string)
    requires Esc !in level && Esc !in message && Esc !in fileName && Esc !in timestamp
    ensures Esc !in PlainFormat(level, message, fileName, timestamp)
  {
    var head := if fileName != "" then "[" + fileName + "]" + " " else "";
    assert Esc !in head;
    var tail := " | " + message;
    assert Esc !in tail;
    var lv := "[" + level + "]";
    assert Esc !in lv;
    var ts := "[" + timestamp + "]";
    assert Esc !in ts;
    assert PlainFormat(level, message, fileName, timestamp) == head + (ts + (" " + (lv + tail)));
  }

  /** For escape-free parts, the line written to the file is the formatted line without its colours:
      the single pass already removes them all. */
  lemma FormatStripsToPlain(level: string, message: string, color: string, fileName: string, timestamp: string)
    requires Esc !in level && Esc !in message && Esc !in fileName && Esc !in timestamp
    requires IsColour(color)
    ensures StripAnsi(FormatMessage(level, message, color, fileName, timestamp)) == PlainFormat(level, message, fileName, timestamp)
  {
    FormatStripsOnce(level, message, color, fileName, timestamp);
    var p := PlainFormat(level, message, fileName, timestamp);
    PlainFormatEscFree(level, message, fileName, timestamp);
    EscFreeIsClean(p);
    StripAnsiAfterClean(FormatMessage(level, message, color, fileName, timestamp));
  }

  // ---------------------------------------------------------------------------
  // level filtering

  const Error: int := 0
  const Warn: int := 1
  const Info: int := 2
  const Debug: int := 3

  /** `this.levels[name]`. */
  function LevelValue(name: string): (r: Option<int>)
    ensures r.Some? ==> Error <= r.value <= Debug
  {
    if name == "ERROR" then Some(Error)
    else if name == "WARN" then Some(Warn)
    else if name == "INFO" then Some(Info)
    else if name == "DEBUG" then Some(Debug)
    else None
  }

  /** `this.levels[name] || this.levels.INFO`: an unknown name, and `ERROR` because 0 is falsy,
      rank as INFO. */
  function Rank(name: string): (r: int)
    ensures Warn <= r <= Debug
    ensures LevelValue(name).Some? && LevelValue(name).value != 0 ==> r == LevelValue(name).value
    ensures LevelValue(name).None? || LevelValue(name).value == 0 ==> r == Info
  {
    match LevelValue(name)
    case Some(v) => if v != 0 then v else Info
    case None => Info
  }

  /** `log(level, …)` emits exactly when this holds. */
  predicate Emits(current: int, level: string)
    ensures current >= Debug ==> Emits(current, level)
    ensures current < Warn ==> !Emits(current, level)
  {
    current >= Rank(ToUpper(level))
  }

  lemma UpperNames()
    ensures ToUpper("error") == "ERROR" && ToUpper("warn") == "WARN" && ToUpper("info") == "INFO"
    ensures ToUpper("debug") == "DEBUG" && ToUpper("http") == "HTTP" && ToUpper("guardian") == "GUARDIAN"
    ensures ToUpper("server") == "SERVER" && ToUpper("user") == "USER" && ToUpper("twitch") == "TWITCH"
    ensures ToUpper("✓") == "✓"
  {
  }

  /** Each level method is filtered by its own rank, except `error`, which ranks as INFO; the other
      kinds all rank as INFO. */
  lemma LevelFilter(current: int)
    ensures Emits(current, "debug") <==> current >= Debug
    ensures Emits(current, "info") <==> current >= Info
    ensures Emits(current, "warn") <==> current >= Warn
    ensures Emits(current, "error") <==> current >= Info
    ensures Emits(current, "✓") <==> current >= Info
    ensures Emits(current, "server") <==> current >= Info
    ensures Emits(current, "user") <==> current >= Info
    ensures Emits(current, "twitch") <==> current >= Info
    ensures Emits(current, "guardian") <==> current >= Info
    ensures Emits(current, "http") <==> current >= Info
  {
    UpperNames();
  }

  /** With the level set to WARN or ERROR, error messages are suppressed, while at WARN warnings
      still pass; at ERROR nothing at all is emitted. */
  lemma ErrorSuppressedBelowInfo(current: int, level: string)
    requires current == Warn || current == Error
    ensures !Emits(current, "error")
    ensures current == Warn ==> Emits(current, "warn")
    ensures current == Error ==> !Emits(current, level)
  {
    UpperNames();
  }

  // ---------------------------------------------------------------------------
  // colour choice and padding

  /** The colour of `http(method, url, status)`. */
  function HttpColor(status: int): (c: string)
    ensures 200 <= status < 300 ==> c == Green
    ensures status >= 400 ==> c == Red
    ensures (status < 200 || 300 <= status < 400) ==> c == Blue
  {
    if status >= 200 && status < 300 then Green
    else if status >= 400 then Red
    else Blue
  }

  function HttpLine(verb: string, url: string, status: int): (r: string)
    ensures |r| > 6 && |r| > |verb| && r[..|verb|] == verb
    ensures EndsWith(r, " → " + IntToString(status))
  {
    var pad := PadEnd(verb, 6);
    var tail := " → " + IntToString(status);
    LineShape(pad, verb, url, tail);
    pad + (" " + (url + tail))
  }

  lemma LineShape(pad: string, verb: string, url: string, tail: string)
    requires |pad| >= 6 && |pad| >= |verb| && pad[..|verb|] == verb
    ensures var line := pad + (" " + (url + tail));
      |line| > 6 && |line| > |verb| && line[..|verb|] == verb && EndsWith(line, tail)
  {
    var line := pad + (" " + (url + tail));
    PrefixKept(pad, " " + (url + tail));
    PrefixOfPrefix(line, pad, verb);
    assert line == (pad + " " + url) + tail;
    SuffixAfter(pad + " " + url, tail);
  }

  /** A prefix of a prefix is a prefix. */
  lemma PrefixOfPrefix(line: string, pad: string, verb: string)
    requires |pad| <= |line| && line[..|pad|] == pad
    requires |verb| <= |pad| && pad[..|verb|] == verb
    ensures line[..|verb|] == verb
  {
    assert line[..|verb|] == line[..|pad|][..|verb|];
  }

  lemma Layout(pad: string, url: string, tail: string)
    ensures var line := pad + (" " + (url + tail));
      |line| == |pad| + 1 + |url| + |tail| && line[..|pad|] == pad
      && line[|pad|] == ' ' && line[|pad| + 1..|pad| + 1 + |url|] == url
  {
    var line := pad + (" " + (url + tail));
    assert line[|pad|..] == " " + (url + tail);
    assert (" " + (url + tail))[1..] == url + tail;
  }

  /** The request method occupies the first six columns at least, padded with spaces, then the URL follows. */
  lemma HttpLineLayout(verb: string, url: string, status: int)
    ensures var line := HttpLine(verb, url, status);
      var w := if |verb| >= 6 then |verb| else 6;
      |line| > w + |url| && line[..|verb|] == verb
      && (forall k :: |verb| <= k < w ==> line[k] == ' ')
      && line[w] == ' ' && line[w + 1..w + 1 + |url|] == url
  {
    var pad := PadEnd(verb, 6);
    var tail := " → " + IntToString(status);
    Layout(pad, url, tail);
    var line := HttpLine(verb, url, status);
    assert line == pad + (" " + (url + tail));
    assert forall k :: 0 <= k < |pad| ==> line[k] == pad[k];
    assert line[..|verb|] == pad[..|verb|];
  }

  /** The colour of `guardian(type, …)` for the upper-cased type. */
  function GuardianColor(upperType: string): (c: string)
    ensures upperType == "WARN" ==> c == Yellow
    ensures upperType == "ERROR" ==> c == Red
    ensures upperType != "WARN" && upperType != "ERROR" ==> c == Cyan
  {
    if upperType == "WARN" then Yellow
    else if upperType == "ERROR" then Red
    else Cyan
  }

  function GuardianLine(upperType: string, message: string): (r: string)
    ensures |r| == (if |upperType| >= 5 then |upperType| else 5) + 3 + |message|
    ensures r[..|upperType|] == upperType
    ensures forall k :: |upperType| <= k < 5 ==> r[k] == ' '
    ensures EndsWith(r, " | " + message)
  {
    var pad := PadEnd(upperType, 5);
    SuffixAfter(pad, " | " + message);
    PrefixKept(pad, " | " + message);
    PrefixOfPrefix(pad + (" | " + message), pad, upperType);
    pad + (" | " + message)
  }

  /** The characters of `a` stay in place in `a + b`. */
  lemma PrefixKept(a: string, b: string)
    ensures |a + b| >= |a| && (a + b)[..|a|] == a
    ensures forall k :: 0 <= k < |a| ==> (a + b)[k] == a[k]
  {
  }

  /** The type is matched case-insensitively. */
  lemma GuardianCaseInsensitive(kind: string)
    ensures GuardianColor(ToUpper(kind)) == Yellow <==> ToLower(kind) == "warn"
    ensures GuardianColor(ToUpper(kind)) == Red <==> ToLower(kind) == "error"
    ensures GuardianColor(ToUpper(kind)) == Cyan <==> ToLower(kind) != "warn" && ToLower(kind) != "error"
    ensures GuardianColor(ToUpper(kind)) == GuardianColor(ToUpper(ToLower(kind)))
  {
    UpperNames();
    assert Yellow[3] != Red[3] && Yellow[3] != Cyan[3] && Red[3] != Cyan[3];
    SameWordAnyCase(kind, "warn");
    SameWordAnyCase(kind, "error");
    SameWordAnyCase(ToLower(kind), "warn");
    SameWordAnyCase(ToLower(kind), "error");
    ToLowerIdempotent(kind);
  }

  /** The largest length among `lines` (`Math.max(...lengths)`, 0 for no lines). */
  function MaxLength(lines: seq<string>): (m: nat)
    ensures forall k :: 0 <= k < |lines| ==> |lines[k]| <= m
    ensures |lines| > 0 ==> exists k :: 0 <= k < |lines| && |lines[k]| == m
    ensures |lines| == 0 ==> m == 0
    decreases |lines|
  {
    if |lines| == 0 then 0
    else
      var rest := MaxLength(lines[1..]);
      if |lines[0]| >= rest then |lines[0]| else rest
  }

  /** One framed line of a box `m` columns wide: the text left-aligned and padded with spaces. */
  function FramedLine(line: string, m: nat): (r: string)
    requires |line| <= m
    ensures |r| == m + 4 && r[..2] == "│ " && r[2..2 + |line|] == line && r[m + 3] == '│'
    ensures forall j :: 2 + |line| <= j < m + 3 ==> r[j] == ' '
  {
    var r := "│ " + line + Repeat(' ', m - |line|) + " │";
    assert r[..2] == "│ " && r[2..2 + |line|] == line;
    r
  }

  /** The console lines of `box(message, color)`: every framed line is as wide as the widest line
      of the message plus the frame, and carries its text left-aligned. */
  function BoxLines(message: string, color: string): (out: seq<string>)
    ensures var lines := Split(message, '\n');
      var m := MaxLength(lines);
      && |out| == |lines| + 2
      && out[0] == color + "┌" + Repeat('─', m + 2) + "┐"
      && out[|out| - 1] == "└" + Repeat('─', m + 2) + "┘" + Reset
      && (forall k :: 1 <= k <= |lines| ==> out[k] == FramedLine(lines[k - 1], m))
  {
    var lines := Split(message, '\n');
    Framed(lines, MaxLength(lines), color)
  }

  /** The box around `lines` for a width `m` that fits every line. */
  function Framed(lines: seq<string>, m: nat, color: string): (out: seq<string>)
    requires forall k :: 0 <= k < |lines| ==> |lines[k]| <= m
    ensures |out| == |lines| + 2
    ensures out[0] == color + "┌" + Repeat('─', m + 2) + "┐"
    ensures out[|out| - 1] == "└" + Repeat('─', m + 2) + "┘" + Reset
    ensures forall k :: 1 <= k <= |lines| ==> out[k] == FramedLine(lines[k - 1], m)
  {
    var border := Repeat('─', m + 2);
    var framed := seq(|lines|, k requires 0 <= k < |lines| => FramedLine(lines[k], m));
    var out := [color + "┌" + border + "┐"] + framed + ["└" + border + "┘" + Reset];
    assert forall k :: 1 <= k <= |lines| ==> out[k] == framed[k - 1];
    out
  }

  // ---------------------------------------------------------------------------
  // the session log

  const LogLineLimit: nat := 10000

  /** The clock reading, the caller's file name and the archive timestamp a call would see. */
  datatype Ambient = Ambient(timestamp: string, callerFile: string, archiveName: string)

  /** What one `_writeToFile(formatted, ...args)` appends; `args` is `util.format(...args)` or `None`
      when there are none. */
  function FileRecord(formatted: string, args: Option<string>): (r: string)
    ensures |r| >= 1 && r[|r| - 1] == '\n'
    ensures var clean := StripOnce(formatted);
      |r| >= |clean| && r[..|clean|] == clean
      && (args.None? ==> |r| == |clean| + 1)
      && (args.Some? ==> |r| == |clean| + |args.value| + 2 && r[|clean|] == '\n' && r[|clean| + 1..|r| - 1] == args.value)
  {
    var clean := StripOnce(formatted);
    var r := clean + (if args.Some? then "\n" + args.value else "") + "\n";
    assert r[..|clean|] == clean;
    assert args.Some? ==> r[|clean| + 1..|r| - 1] == args.value;
    r
  }

  /** For escape-free parts, the record written for a formatted line is the plain line, the
      arguments after a newline, and a final newline: one pass removes every colour. */
  lemma RecordOfFormattedLine(level: string, message: string, color: string, fileName: string, timestamp: string,
                              args: Option<string>)
    requires Esc !in level && Esc !in message && Esc !in fileName && Esc !in timestamp
    requires IsColour(color)
    ensures FileRecord(FormatMessage(level, message, color, fileName, timestamp), args)
      == PlainFormat(level, message, fileName, timestamp) + (if args.Some? then "\n" + args.value else "") + "\n"
  {
    FormatStripsOnce(level, message, color, fileName, timestamp);
  }

  function RotationNotice(archiveName: string): string {
    "📜 Log-Archiv erstellt: " + archiveName + ".log"
  }

  /** The session log, its line counter and the archived logs. */
  datatype FileState = FileState(log: string, lineCount: nat, archives: seq<string>)

  /** `_rotateLog()` run to completion: at the limit, the log is archived, the counter reset and the
      notice logged through `info`, whose own write is far below the limit. */
  function RotateSpec(f: FileState, level: int, amb: Ambient): (g: FileState)
    ensures f.lineCount < LogLineLimit ==> g == f
    ensures f.lineCount >= LogLineLimit ==>
      (g.archives == f.archives + [f.log]
       && g.lineCount == (if Emits(level, "info") then 1 else 0)
       && (!Emits(level, "info") ==> g.log == "")
       && (Emits(level, "info") ==> EndsWith(g.log, "\n") && g.log != ""))
  {
    if f.lineCount < LogLineLimit then f
    else if Emits(level, "info") then
      FileState(FileRecord(FormatMessage("INFO", RotationNotice(amb.archiveName), Green, amb.callerFile, amb.timestamp), None),
                1, f.archives + [f.log])
    else FileState("", 0, f.archives + [f.log])
  }

  /** `_writeToFile(formatted, ...args)` followed by the rotation it starts. */
  function WriteSpec(f: FileState, level: int, stream: bool, formatted: string, args: Option<string>, amb: Ambient): (g: FileState)
    ensures stream ==> g.lineCount < LogLineLimit
  {
    if !stream then f
    else RotateSpec(f.(log := f.log + FileRecord(formatted, args), lineCount := f.lineCount + 1), level, amb)
  }

  /** The archives followed by the current log, in order. */
  function History(f: FileState): string {
    Concat(f.archives) + f.log
  }

  function Concat(xs: seq<string>): string
    decreases |xs|
  {
    if |xs| == 0 then "" else Concat(xs[..|xs| - 1]) + xs[|xs| - 1]
  }

  /** Below the limit, a write counts exactly one line, however many newlines the record holds. */
  lemma WriteCountsOneLine(f: FileState, level: int, formatted: string, args: Option<string>, amb: Ambient)
    requires f.lineCount + 1 < LogLineLimit
    ensures var g := WriteSpec(f, level, true, formatted, args, amb);
      g.lineCount == f.lineCount + 1 && g.log == f.log + FileRecord(formatted, args) && g.archives == f.archives
  {
  }

  /** Without a stream a write changes nothing. */
  lemma WriteWithoutStream(f: FileState, level: int, formatted: string, args: Option<string>, amb: Ambient)
    ensures WriteSpec(f, level, false, formatted, args, amb) == f
  {
  }

  /** Rotation loses nothing: the archives and the log together hold everything written before,
      then this record, then the rotation notice if one was logged. */
  lemma WriteLosesNothing(f: FileState, level: int, formatted: string, args: Option<string>, amb: Ambient)
    ensures var g := WriteSpec(f, level, true, formatted, args, amb);
      var rec := FileRecord(formatted, args);
      (History(g) == History(f) + rec || History(g) == History(f) + rec + g.log)
      && (f.lineCount + 1 >= LogLineLimit ==> |g.archives| == |f.archives| + 1 && g.archives[|f.archives|] == f.log + rec)
  {
    var rec := FileRecord(formatted, args);
    if f.lineCount + 1 >= LogLineLimit {
      WriteRotates(f, level, formatted, args, amb);
      HistoryAfterArchive(f, rec, WriteSpec(f, level, true, formatted, args, amb));
    } else {
      WriteCountsOneLine(f, level, formatted, args, amb);
      HistoryAfterAppend(f, rec, WriteSpec(f, level, true, formatted, args, amb));
    }
  }

  lemma HistoryAfterArchive(f: FileState, rec: string, g: FileState)
    requires g.archives == f.archives + [f.log + rec]
    ensures History(g) == History(f) + rec + g.log
  {
    ConcatSnoc(f.archives, f.log + rec);
  }

  lemma HistoryAfterAppend(f: FileState, rec: string, g: FileState)
    requires g.archives == f.archives && g.log == f.log + rec
    ensures History(g) == History(f) + rec
  {
  }

  lemma ConcatSnoc(xs: seq<string>, x: string)
    ensures Concat(xs + [x]) == Concat(xs) + x
  {
    assert (xs + [x])[..|xs|] == xs;
  }

  /** A write that reaches the limit archives the old log with this record, then restarts the log
      with the rotation notice alone when `info` is emitted, or empty when it is not; for escape-free
      clock readings and file names the notice is written as its plain line. */
  lemma WriteRotates(f: FileState, level: int, formatted: string, args: Option<string>, amb: Ambient)
    requires f.lineCount + 1 >= LogLineLimit
    ensures var g := WriteSpec(f, level, true, formatted, args, amb);
      g.archives == f.archives + [f.log + FileRecord(formatted, args)]
      && g.lineCount == (if Emits(level, "info") then 1 else 0)
      && (!Emits(level, "info") ==> g.log == "")
      && (Emits(level, "info") ==>
            g.log == FileRecord(FormatMessage("INFO", RotationNotice(amb.archiveName), Green, amb.callerFile, amb.timestamp), None))
      && (Emits(level, "info") && Esc !in amb.callerFile && Esc !in amb.timestamp && Esc !in amb.archiveName ==>
            g.log == PlainFormat("INFO", RotationNotice(amb.archiveName), amb.callerFile, amb.timestamp) + "\n")
  {
    var f1 := f.(log := f.log + FileRecord(formatted, args), lineCount := f.lineCount + 1);
    assert WriteSpec(f, level, true, formatted, args, amb) == RotateSpec(f1, level, amb);
    if Esc !in amb.callerFile && Esc !in amb.timestamp && Esc !in amb.archiveName {
      NoticeRecordPlain(amb);
    }
  }

  /** For an escape-free clock reading, file name and archive name, the notice record is the plain
      notice line and a newline. */
  lemma NoticeRecordPlain(amb: Ambient)
    requires Esc !in amb.callerFile && Esc !in amb.timestamp && Esc !in amb.archiveName
    ensures FileRecord(FormatMessage("INFO", RotationNotice(amb.archiveName), Green, amb.callerFile, amb.timestamp), None)
      == PlainFormat("INFO", RotationNotice(amb.archiveName), amb.callerFile, amb.timestamp) + "\n"
  {
    assert ValidParams("32") && Green == Sgr("32");
    assert Esc !in RotationNotice(amb.archiveName);
    RecordOfFormattedLine("INFO", RotationNotice(amb.archiveName), Green, amb.callerFile, amb.timestamp, None);
  }

  /** The initial counter, `data.split('\n').length - 1`, is the number of newlines in the file. */
  function InitialLineCount(data: string): (n: nat)
    ensures n == Count(data, '\n')
  {
    SplitLength(data, '\n');
    |Split(data, '\n')| - 1
  }

  /** The logger. `streamOpen` says whether `_initialize` opened the write stream; the log file
      exists whenever it did. */
  class ChronicleLogger {
    var currentLevel: int
    var streamOpen: bool
    var log: string
    var lineCount: nat
    var archives: seq<string>

    function State(): FileState
      reads this
    {
      FileState(log, lineCount, archives)
    }

    /** `new ChronicleLogger()`, which runs `_initialize`; `existing` is the current session log,
        `setupOk` whether the directories and the stream could be created. */
    constructor (existing: Option<string>, setupOk: bool)
      ensures currentLevel == Debug && archives == [] && log == existing.GetOr("")
      ensures streamOpen == setupOk
      ensures lineCount == if setupOk && existing.Some? then Count(existing.value, '\n') else 0
    {
      currentLevel := Debug;
      archives := [];
      log := existing.GetOr("");
      streamOpen := setupOk;
      lineCount := if setupOk && existing.Some? then InitialLineCount(existing.value) else 0;
    }

    /** `setLevel(level)`: only a recognised name (in any case) changes the level. */
    method SetLevel(level: string)
      modifies this`currentLevel
      ensures LevelValue(ToUpper(level)).Some? ==> currentLevel == LevelValue(ToUpper(level)).value
      ensures LevelValue(ToUpper(level)).None? ==> currentLevel == old(currentLevel)
    {
      var known := LevelValue(ToUpper(level));
      if known.Some? {
        currentLevel := known.value;
      }
    }

    /** The write itself. */
    method Append(formatted: string, args: Option<string>)
      modifies this`log, this`lineCount
      ensures log == old(log) + FileRecord(formatted, args) && lineCount == old(lineCount) + 1
    {
      log := log + FileRecord(formatted, args);
      lineCount := lineCount + 1;
    }

    /** `_rotateLog()`. */
    method RotateLog(amb: Ambient)
      modifies this`log, this`lineCount, this`archives
      ensures State() == RotateSpec(old(State()), currentLevel, amb)
    {
      if lineCount >= LogLineLimit {
        archives := archives + [log];
        log := "";
        lineCount := 0;
        var upper := ToUpper("info");
        assert upper == "INFO";
        if currentLevel >= Rank(upper) {
          Append(FormatMessage(upper, RotationNotice(amb.archiveName), Green, amb.callerFile, amb.timestamp), None);
        }
      }
    }

    /** `_writeToFile(formatted, ...args)`. */
    method WriteToFile(formatted: string, args: Option<string>, amb: Ambient)
      modifies this`log, this`lineCount, this`archives
      ensures State() == WriteSpec(old(State()), currentLevel, streamOpen, formatted, args, amb)
    {
      if !streamOpen {
        return;
      }
      Append(formatted, args);
      RotateLog(amb);
    }

    /** `log(level, message, color, ...args)`. */
    method Log(level: string, message: string, color: string, args: Option<string>, amb: Ambient)
      modifies this`log, this`lineCount, this`archives
      ensures !Emits(currentLevel, level) ==> State() == old(State())
      ensures Emits(currentLevel, level) ==> State() == WriteSpec(old(State()), currentLevel, streamOpen,
          FormatMessage(ToUpper(level), message, color, amb.callerFile, amb.timestamp), args, amb)
    {
      var upper := ToUpper(level);
      if currentLevel >= Rank(upper) {
        WriteToFile(FormatMessage(upper, message, color, amb.callerFile, amb.timestamp), args, amb);
      }
    }

    /** `guardian(type, message, ...args)`. */
    method Guardian(kind: string, message: string, args: Option<string>, amb: Ambient)
      modifies this`log, this`lineCount, this`archives
      ensures var upper := ToUpper(kind);
        State() == if Emits(currentLevel, "guardian")
          then WriteSpec(old(State()), currentLevel, streamOpen,
                 FormatMessage("GUARDIAN", GuardianLine(upper, message), GuardianColor(upper), amb.callerFile, amb.timestamp), args, amb)
          else old(State())
    {
      var upper := ToUpper(kind);
      UpperNames();
      Log("guardian", GuardianLine(upper, message), GuardianColor(upper), args, amb);
    }

    /** `http(method, url, status, ...args)`. */
    method Http(verb: string, url: string, status: int, args: Option<string>, amb: Ambient)
      modifies this`log, this`lineCount, this`archives
      ensures State() == if Emits(currentLevel, "http")
          then WriteSpec(old(State()), currentLevel, streamOpen,
                 FormatMessage("HTTP", HttpLine(verb, url, status), HttpColor(status), amb.callerFile, amb.timestamp), args, amb)
          else old(State())
    {
      UpperNames();
      Log("http", HttpLine(verb, url, status), HttpColor(status), args, amb);
    }
  }
}
