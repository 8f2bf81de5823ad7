/** The record formatter of logging_bullet_train: colour tables, the
    background-to-foreground contrast tables, and `format`, which renders one
    log record as a powerline-style line of four coloured segments joined by
    arrow glyphs. */
module BulletTrain {
  import opened Colorama
  import opened Pieces

  datatype Option<T> = None | Some(value: T)

  /** The powerline arrow glyph U+E0B0 that joins two segments. */
  const Arrow: char := '\U{E0B0}'

  /** The level names the colour tables know. */
  const KnownLevels: set<string> := {"DEBUG", "INFO", "WARNING", "ERROR", "CRITICAL"}

  /** `levelname_bg`: the background of the level segment. */
  const LevelnameBg: map<string, Back> := map[
    "DEBUG" := Back.BLUE,
    "INFO" := Back.GREEN,
    "WARNING" := Back.YELLOW,
    "ERROR" := Back.RED,
    "CRITICAL" := Back.RED
  ]

  /** `message_fg`: the foreground of the message segment. */
  const MessageFg: map<string, Fore> := map[
    "DEBUG" := Fore.BLUE,
    "INFO" := Fore.GREEN,
    "WARNING" := Fore.YELLOW,
    "ERROR" := Fore.RED,
    "CRITICAL" := Fore.RED
  ]

  /** `bg2fg`: the foreground that draws an arrow in the colour of the
      background it leaves. */
  const Bg2Fg: map<Back, Fore> := map[
    Back.BLACK := Fore.BLACK,
    Back.RED := Fore.RED,
    Back.GREEN := Fore.GREEN,
    Back.YELLOW := Fore.YELLOW,
    Back.BLUE := Fore.BLUE,
    Back.MAGENTA := Fore.MAGENTA,
    Back.CYAN := Fore.CYAN,
    Back.WHITE := Fore.WHITE,
    Back.RESET := Fore.WHITE,
    Back.LIGHTBLACK_EX := Fore.WHITE,
    Back.LIGHTRED_EX := Fore.WHITE,
    Back.LIGHTGREEN_EX := Fore.BLACK,
    Back.LIGHTYELLOW_EX := Fore.BLACK,
    Back.LIGHTBLUE_EX := Fore.WHITE,
    Back.LIGHTMAGENTA_EX := Fore.WHITE,
    Back.LIGHTCYAN_EX := Fore.BLACK,
    Back.LIGHTWHITE_EX := Fore.BLACK
  ]

  /** The dictionary inside `bg_to_fg`: a readable foreground on each
      background. */
  const ContrastFg: map<Back, Fore> := map[
    Back.BLACK := Fore.WHITE,
    Back.RED := Fore.WHITE,
    Back.GREEN := Fore.BLACK,
    Back.YELLOW := Fore.BLACK,
    Back.BLUE := Fore.WHITE,
    Back.MAGENTA := Fore.WHITE,
    Back.CYAN := Fore.BLACK,
    Back.WHITE := Fore.BLACK,
    Back.RESET := Fore.WHITE,
    Back.LIGHTBLACK_EX := Fore.WHITE,
    Back.LIGHTRED_EX := Fore.WHITE,
    Back.LIGHTGREEN_EX := Fore.BLACK,
    Back.LIGHTYELLOW_EX := Fore.BLACK,
    Back.LIGHTBLUE_EX := Fore.WHITE,
    Back.LIGHTMAGENTA_EX := Fore.WHITE,
    Back.LIGHTCYAN_EX := Fore.BLACK,
    Back.LIGHTWHITE_EX := Fore.BLACK
  ]

  /** Both level tables are keyed by exactly the known level names. */
  lemma LevelTablesDomain()
    ensures LevelnameBg.Keys == KnownLevels
    ensures MessageFg.Keys == KnownLevels
  {
  }

  /** `bg2fg` and the `bg_to_fg` dictionary are keyed by exactly the
      background colours colorama defines. */
  lemma ContrastTablesDomain()
    ensures Bg2Fg.Keys == AllBacks
    ensures ContrastFg.Keys == AllBacks
  {
  }

  /** `bg2fg` is total: it has an entry for every background colour. */
  lemma Bg2FgTotal(b: Back)
    ensures b in Bg2Fg
  {
    AllBacksComplete(b);
    ContrastTablesDomain();
  }

  /** The `bg_to_fg` dictionary is total on the background colours too. */
  lemma ContrastFgTotal(b: Back)
    ensures b in ContrastFg
  {
    AllBacksComplete(b);
    ContrastTablesDomain();
  }

  /** On `Back.RESET` and the light colours `bg2fg` repeats the contrasting
      foreground `bg_to_fg` would choose. */
  lemma TablesAgreeOffStandard(b: Back)
    requires b !in StandardBacks
    ensures Bg2Fg[b] == ContrastFg[b]
  {
    Bg2FgTotal(b);
  }

  /** On the eight standard colours `bg2fg` gives the background's own
      colour, which is never the contrasting one `bg_to_fg` chooses. */
  lemma TablesDifferOnStandard(b: Back)
    requires b in StandardBacks
    ensures Bg2Fg[b] != ContrastFg[b]
  {
  }

  /** Every background `format` can look up in `bg2fg` has an entry there:
      each `levelname_bg` value, the `Back.BLACK` fallback and `Back.CYAN`. */
  lemma ArrowLookupsDefined()
    ensures forall name :: name in LevelnameBg ==> LevelnameBg[name] in Bg2Fg
    ensures Back.BLACK in Bg2Fg && Back.CYAN in Bg2Fg
    ensures Bg2Fg[Back.CYAN] == Fore.CYAN
  {
  }

  /** `bg_to_fg(bg)`. Python indexes a dictionary keyed by the 17 `Back`
      codes, so any other code raises `KeyError`, modelled as `None`. */
  function BgToFg(bg: Token): (r: Option<Fore>)
    ensures r.Some? <==> bg.BackCode?
    ensures r.Some? ==> r.value == Fore.WHITE || r.value == Fore.BLACK
  {
    match bg
    case BackCode(b) => ContrastFgTotal(b); Some(ContrastFg[b])
    case _ => None
  }

  /** `levelname_bg.get(levelname, Back.BLACK)`: the level background of
      each known level, and black for any other level name (a custom level,
      or a misspelt one). */
  function LevelBackground(levelname: string): (b: Back)
    ensures levelname == "DEBUG" ==> b == Back.BLUE
    ensures levelname == "INFO" ==> b == Back.GREEN
    ensures levelname == "WARNING" ==> b == Back.YELLOW
    ensures levelname == "ERROR" ==> b == Back.RED
    ensures levelname == "CRITICAL" ==> b == Back.RED
    ensures levelname !in KnownLevels ==> b == Back.BLACK
  {
    if levelname in LevelnameBg then LevelnameBg[levelname] else Back.BLACK
  }

  /** `message_fg.get(levelname, Fore.WHITE)`: the message foreground of
      each known level, and white for any other level name. */
  function MessageForeground(levelname: string): (f: Fore)
    ensures levelname == "DEBUG" ==> f == Fore.BLUE
    ensures levelname == "INFO" ==> f == Fore.GREEN
    ensures levelname == "WARNING" ==> f == Fore.YELLOW
    ensures levelname == "ERROR" ==> f == Fore.RED
    ensures levelname == "CRITICAL" ==> f == Fore.RED
    ensures levelname !in KnownLevels ==> f == Fore.WHITE
  {
    if levelname in MessageFg then MessageFg[levelname] else Fore.WHITE
  }

  /** The arrow leaving the level segment has the message's colour exactly
      for the known levels; an unknown level's arrow is black (from
      `bg2fg[Back.BLACK]`) while its message is white. */
  lemma ArrowMatchesMessage(levelname: string)
    ensures Bg2Fg[LevelBackground(levelname)] == MessageForeground(levelname)
        <==> levelname in KnownLevels
  {
    if levelname !in KnownLevels {
      assert Bg2Fg[Back.BLACK] == Fore.BLACK;
    }
  }

  /** `n` spaces. */
  function Spaces(n: nat): (r: string)
    ensures |r| == n
  {
    if n == 0 then [] else [' '] + Spaces(n - 1)
  }

  /** `f"{s:<width>s}"`: `s` left-justified in a field of `width` columns. */
  function LeftJustify(s: string, width: nat): (r: string)
    ensures |r| == if |s| < width then width else |s|
  {
    if |s| < width then s + Spaces(width - |s|) else s
  }

  /** Every character of `Spaces(n)` is a space. */
  lemma {:induction false} SpacesAt(n: nat, i: nat)
    requires i < n
    ensures Spaces(n)[i] == ' '
  {
    if i > 0 {
      assert Spaces(n)[i] == Spaces(n - 1)[i - 1];
      SpacesAt(n - 1, i - 1);
    }
  }

  /** Left-justifying keeps `s` whole at the front, never truncating it, and
      pads it with spaces up to `width` columns. */
  lemma LeftJustifyPads(s: string, width: nat)
    ensures LeftJustify(s, width)[..|s|] == s
    ensures forall i :: |s| <= i < |LeftJustify(s, width)| ==> LeftJustify(s, width)[i] == ' '
  {
    var r := LeftJustify(s, width);
    if |s| < width {
      assert r == s + Spaces(width - |s|);
      forall i | |s| <= i < |r|
        ensures r[i] == ' '
      {
        assert r[i] == Spaces(width - |s|)[i - |s|];
        SpacesAt(width - |s|, i - |s|);
      }
    }
  }

  /** The width of the level-name field. */
  const LevelWidth: nat := 8

  /** What `format` reads of a `logging.LogRecord`: the level name, the
      logger name, the result of `getMessage()`, and the result of
      `formatException(exc_info)` when `exc_info` is set. */
  datatype LogRecord = LogRecord(
    levelname: string,
    name: string,
    message: string,
    excText: Option<string>)

  const Reset: Piece := Code(StyleCode(RESET_ALL))

  /** `"\n" + formatException(...)` when there is exception text. */
  function Tail(excText: Option<string>): (r: string)
    ensures excText.None? ==> r == ""
    ensures excText.Some? ==> |r| == |excText.value| + 1 && r[0] == '\n' && r[1..] == excText.value
  {
    if excText.Some? then "\n" + excText.value else ""
  }

  /** One powerline segment, the shape of `time_colored`, `level_colored`
      and `name_colored`: the codes `open`, the text, a reset, then the
      codes `bridge`, the arrow and a reset. */
  function Segment(open: seq<Token>, text: string, bridge: seq<Token>): (r: Line)
    ensures |r| == |open| + |text| + |bridge| + 3
  {
    CodesLine(open) + Lit(text) + [Reset] + CodesLine(bridge) + [Ch(Arrow)] + [Reset]
  }

  /** What a segment shows and which codes it emits: its text then the
      arrow; its opening codes, a reset, its bridge codes and a reset. */
  lemma SegmentViews(open: seq<Token>, text: string, bridge: seq<Token>)
    ensures Plain(Segment(open, text, bridge)) == text + [Arrow]
    ensures Codes(Segment(open, text, bridge))
         == open + [StyleCode(RESET_ALL)] + bridge + [StyleCode(RESET_ALL)]
  {
    var a := CodesLine(open);
    var b := a + Lit(text);
    var c := b + [Reset];
    var d := c + CodesLine(bridge);
    var e := d + [Ch(Arrow)];
    CodesLineViews(open); LitViews(text); SingleViews(Reset);
    CodesLineViews(bridge); SingleViews(Ch(Arrow));
    PlainConcat(a, Lit(text));
    assert Plain(b) == text;
    PlainConcat(b, [Reset]);
    assert Plain(c) == text;
    PlainConcat(c, CodesLine(bridge));
    assert Plain(d) == text;
    PlainConcat(d, [Ch(Arrow)]);
    assert Plain(e) == text + [Arrow];
    PlainConcat(e, [Reset]);
    CodesConcat(a, Lit(text));
    assert Codes(b) == open;
    CodesConcat(b, [Reset]);
    assert Codes(c) == open + [StyleCode(RESET_ALL)];
    CodesConcat(c, CodesLine(bridge));
    assert Codes(d) == open + [StyleCode(RESET_ALL)] + bridge;
    CodesConcat(d, [Ch(Arrow)]);
    assert Codes(e) == open + [StyleCode(RESET_ALL)] + bridge;
    CodesConcat(e, [Reset]);
  }

  /** The piece at offset `k` of a segment, position by position: the
      opening codes, the text, a reset, the bridge codes, the arrow and a
      reset. */
  function SegmentPiece(open: seq<Token>, text: string, bridge: seq<Token>, k: nat): Piece
    requires k < |open| + |text| + |bridge| + 3
  {
    var t, b := |open| + |text|, |open| + |text| + 1;
    if k < |open| then Code(open[k])
    else if k < t then Ch(text[k - |open|])
    else if k == t then Reset
    else if k < b + |bridge| then Code(bridge[k - b])
    else if k == b + |bridge| then Ch(Arrow)
    else Reset
  }

  /** `line` holds, from offset `lo` on, the segment with opening codes
      `open`, text `text` and bridge codes `bridge`, piece by piece. */
  predicate SegmentLaidOut(line: Line, lo: nat, open: seq<Token>, text: string, bridge: seq<Token>)
  {
    && lo + |open| + |text| + |bridge| + 3 <= |line|
    && forall k :: 0 <= k < |open| + |text| + |bridge| + 3 ==>
         line[lo + k] == SegmentPiece(open, text, bridge, k)
  }

  /** A segment, on its own, is laid out from its first piece: its
      concatenation of codes and text agrees, position by position, with
      `SegmentPiece`. */
  lemma SegmentPieces(open: seq<Token>, text: string, bridge: seq<Token>)
    ensures SegmentLaidOut(Segment(open, text, bridge), 0, open, text, bridge)
  {
    var seg := Segment(open, text, bridge);
    var a := CodesLine(open);
    var b := a + Lit(text);
    var c := b + [Reset];
    var d := c + CodesLine(bridge);
    var e := d + [Ch(Arrow)];
    assert seg == e + [Reset];
    forall k | 0 <= k < |seg|
      ensures seg[k] == SegmentPiece(open, text, bridge, k)
    {
      if k < |a| {
        assert seg[k] == e[k] == d[k] == c[k] == b[k] == a[k];
        CodesLineIndex(open, k);
      } else if k < |b| {
        assert seg[k] == e[k] == d[k] == c[k] == b[k] == Lit(text)[k - |a|];
        LitIndex(text, k - |a|);
      } else if k == |b| {
        assert seg[k] == e[k] == d[k] == c[k];
      } else if k < |d| {
        assert seg[k] == e[k] == d[k] == CodesLine(bridge)[k - |c|];
        CodesLineIndex(bridge, k - |c|);
      } else if k == |d| {
        assert seg[k] == e[k];
      }
    }
  }

  /** A segment found at offset `lo` of a line is laid out there. */
  lemma SegmentAt(line: Line, lo: nat, open: seq<Token>, text: string, bridge: seq<Token>)
    requires lo + |Segment(open, text, bridge)| <= |line|
    requires line[lo..lo + |Segment(open, text, bridge)|] == Segment(open, text, bridge)
    ensures SegmentLaidOut(line, lo, open, text, bridge)
  {
    var seg := Segment(open, text, bridge);
    SegmentPieces(open, text, bridge);
    forall j | 0 <= j < |seg|
      ensures line[lo + j] == seg[j]
    {
      assert line[lo..lo + |seg|][j] == line[lo + j];
    }
  }

  /** `time_colored`: the timestamp on white, then an arrow from white into
      the level's background. */
  function TimeColored(ts: string, levelBg: Back): (r: Line)
    ensures |r| == |ts| + 9
  {
    Segment([BackCode(Back.WHITE), ForeCode(Fore.BLACK)], " " + ts + " ",
            [BackCode(levelBg), ForeCode(Fore.WHITE)])
  }

  /** `level_colored`: the left-justified level name on the level's
      background, then an arrow from that background into cyan, in the
      colour `bg2fg[level_bg]`. */
  function LevelColored(levelname: string, levelBg: Back): (r: Line)
    requires levelBg in Bg2Fg
    ensures |r| == |LeftJustify(levelname, LevelWidth)| + 8
  {
    Segment([BackCode(levelBg)], " " + LeftJustify(levelname, LevelWidth) + " ",
            [BackCode(Back.CYAN), ForeCode(Bg2Fg[levelBg])])
  }

  /** `name_colored`: the logger name on cyan, then an arrow in the colour
      `bg2fg[Back.CYAN]`. */
  function NameColored(name: string): (r: Line)
    ensures |r| == |name| + 7
  {
    Segment([BackCode(Back.CYAN)], " " + name + " ", [ForeCode(Bg2Fg[Back.CYAN])])
  }

  /** The logger-name arrow is cyan: `bg2fg[Back.CYAN]` is `Fore.CYAN`. */
  lemma NameArrowCyan(name: string)
    ensures NameColored(name) == Segment([BackCode(Back.CYAN)], " " + name + " ", [ForeCode(Fore.CYAN)])
  {
    ArrowLookupsDefined();
  }

  /** `message_colored`: the message in the level's foreground, a reset, and
      the exception text, uncoloured, when there is one. */
  function MessageColored(msgFg: Fore, message: string, excText: Option<string>): (r: Line)
    ensures |r| == |message| + 3 + |Tail(excText)|
  {
    [Code(ForeCode(msgFg))] + Lit(" " + message) + [Reset] + Lit(Tail(excText))
  }

  /** The message segment shows the message and the exception text, and
      emits only its foreground and one reset. */
  lemma MessageViews(msgFg: Fore, message: string, excText: Option<string>)
    ensures Plain(MessageColored(msgFg, message, excText)) == " " + message + Tail(excText)
    ensures Codes(MessageColored(msgFg, message, excText)) == [ForeCode(msgFg), StyleCode(RESET_ALL)]
  {
    var text, tail := " " + message, Tail(excText);
    var a := [Code(ForeCode(msgFg))];
    var b := a + Lit(text);
    var c := b + [Reset];
    assert MessageColored(msgFg, message, excText) == c + Lit(tail);
    SingleViews(a[0]); LitViews(text); SingleViews(Reset); LitViews(tail);
    PlainConcat(a, Lit(text));
    assert Plain(b) == text;
    PlainConcat(b, [Reset]);
    assert Plain(c) == text;
    PlainConcat(c, Lit(tail));
    CodesConcat(a, Lit(text));
    assert Codes(b) == [ForeCode(msgFg)];
    CodesConcat(b, [Reset]);
    assert Codes(c) == [ForeCode(msgFg), StyleCode(RESET_ALL)];
    CodesConcat(c, Lit(tail));
  }

  /** `ColoredIsoDatetimeFormatter.format(record)`, where `ts` is what
      `formatTime(record)` returned: the four segments, in order. */
  function Format(record: LogRecord, ts: string): (line: Line)
    ensures |line| == |ts| + |LeftJustify(record.levelname, LevelWidth)| + |record.name|
                      + |record.message| + |Tail(record.excText)| + 27
  {
    var levelBg := LevelBackground(record.levelname);
    var msgFg := MessageForeground(record.levelname);
    TimeColored(ts, levelBg)
    + LevelColored(record.levelname, levelBg)
    + NameColored(record.name)
    + MessageColored(msgFg, record.message, record.excText)
  }

  /** What `format` shows once the colour codes are stripped, segment by
      segment: the timestamp, the level name left-justified to 8 columns,
      the logger name and the message, each after one space, the first
      three each followed by a space and the arrow; then the exception text. */
  lemma FormatText(record: LogRecord, ts: string)
    ensures Plain(Format(record, ts))
         == (" " + ts + " " + [Arrow])
          + (" " + LeftJustify(record.levelname, LevelWidth) + " " + [Arrow])
          + (" " + record.name + " " + [Arrow])
          + (" " + record.message + Tail(record.excText))
  {
    var levelBg := LevelBackground(record.levelname);
    var msgFg := MessageForeground(record.levelname);
    var t := TimeColored(ts, levelBg);
    var l := LevelColored(record.levelname, levelBg);
    var n := NameColored(record.name);
    var m := MessageColored(msgFg, record.message, record.excText);
    assert Format(record, ts) == t + l + n + m;
    Views4(t, l, n, m);
    Bg2FgTotal(levelBg);
    SegmentViews([BackCode(Back.WHITE), ForeCode(Fore.BLACK)], " " + ts + " ",
                 [BackCode(levelBg), ForeCode(Fore.WHITE)]);
    SegmentViews([BackCode(levelBg)], " " + LeftJustify(record.levelname, LevelWidth) + " ",
                 [BackCode(Back.CYAN), ForeCode(Bg2Fg[levelBg])]);
    SegmentViews([BackCode(Back.CYAN)], " " + record.name + " ", [ForeCode(Bg2Fg[Back.CYAN])]);
    MessageViews(msgFg, record.message, record.excText);
  }

  /** The colour codes of `format`, segment by segment. Every colour a
      segment opens is reset before the next segment's colour, and the last
      code is a reset. The level decides the level background, the colour
      of the arrow out of it and the message foreground. */
  lemma FormatColours(record: LogRecord, ts: string)
    ensures var levelBg, reset := LevelBackground(record.levelname), StyleCode(RESET_ALL);
      Codes(Format(record, ts))
      == ([BackCode(Back.WHITE), ForeCode(Fore.BLACK)] + [reset]
          + [BackCode(levelBg), ForeCode(Fore.WHITE)] + [reset])
       + ([BackCode(levelBg)] + [reset]
          + [BackCode(Back.CYAN), ForeCode(Bg2Fg[levelBg])] + [reset])
       + ([BackCode(Back.CYAN)] + [reset]
          + [ForeCode(Fore.CYAN)] + [reset])
       + [ForeCode(MessageForeground(record.levelname)), reset]
  {
    var levelBg := LevelBackground(record.levelname);
    var msgFg := MessageForeground(record.levelname);
    var t := TimeColored(ts, levelBg);
    var l := LevelColored(record.levelname, levelBg);
    var n := NameColored(record.name);
    var m := MessageColored(msgFg, record.message, record.excText);
    var reset := StyleCode(RESET_ALL);
    assert Format(record, ts) == t + l + n + m;
    Views4(t, l, n, m);
    Bg2FgTotal(levelBg);
    ArrowLookupsDefined();
    SegmentViews([BackCode(Back.WHITE), ForeCode(Fore.BLACK)], " " + ts + " ",
                 [BackCode(levelBg), ForeCode(Fore.WHITE)]);
    assert Codes(t) == [BackCode(Back.WHITE), ForeCode(Fore.BLACK)] + [reset]
                       + [BackCode(levelBg), ForeCode(Fore.WHITE)] + [reset];
    SegmentViews([BackCode(levelBg)], " " + LeftJustify(record.levelname, LevelWidth) + " ",
                 [BackCode(Back.CYAN), ForeCode(Bg2Fg[levelBg])]);
    assert Codes(l) == [BackCode(levelBg)] + [reset]
                       + [BackCode(Back.CYAN), ForeCode(Bg2Fg[levelBg])] + [reset];
    SegmentViews([BackCode(Back.CYAN)], " " + record.name + " ", [ForeCode(Bg2Fg[Back.CYAN])]);
    assert Codes(n) == [BackCode(Back.CYAN)] + [reset] + [ForeCode(Fore.CYAN)] + [reset];
    MessageViews(msgFg, record.message, record.excText);
  }

  /** The four segments of `format`, in order, where they sit in the line. */
  lemma FormatSplit(record: LogRecord, ts: string)
    ensures var line, levelBg := Format(record, ts), LevelBackground(record.levelname);
      var pad := LeftJustify(record.levelname, LevelWidth);
      var lv, nm, ms := |ts| + 9, |ts| + |pad| + 17, |ts| + |pad| + |record.name| + 24;
      && line[..lv] == TimeColored(ts, levelBg)
      && line[lv..nm] == LevelColored(record.levelname, levelBg)
      && line[nm..ms] == NameColored(record.name)
      && line[ms..] == MessageColored(MessageForeground(record.levelname), record.message, record.excText)
  {
    var levelBg := LevelBackground(record.levelname);
    var t, l := TimeColored(ts, levelBg), LevelColored(record.levelname, levelBg);
    var n, m := NameColored(record.name), MessageColored(MessageForeground(record.levelname), record.message, record.excText);
    assert Format(record, ts) == t + l + n + m;
    assert |t| == |ts| + 9 && |l| == |LeftJustify(record.levelname, LevelWidth)| + 8 && |n| == |record.name| + 7;
    Split4(t, l, n, m);
  }

  /** The piece at offset `k` of the message segment: the foreground, the
      text, a reset, then the tail. */
  function MessagePiece(fg: Fore, text: string, tail: string, k: nat): Piece
    requires k < |text| + |tail| + 2
  {
    if k == 0 then Code(ForeCode(fg))
    else if k <= |text| then Ch(text[k - 1])
    else if k == |text| + 1 then Reset
    else Ch(tail[k - |text| - 2])
  }

  /** `line` holds, from offset `ms` to its end, the message segment in
      foreground `fg` with text `text` and tail `tail`, and nothing else. */
  predicate MessageLaidOut(line: Line, ms: nat, fg: Fore, text: string, tail: string)
  {
    && |line| == ms + |text| + |tail| + 2
    && forall k :: 0 <= k < |text| + |tail| + 2 ==> line[ms + k] == MessagePiece(fg, text, tail, k)
  }

  /** A line that ends with the message segment from `ms` on has it laid out there. */
  lemma MessageAt(line: Line, ms: nat, msgFg: Fore, message: string, excText: Option<string>)
    requires ms <= |line|
    requires line[ms..] == MessageColored(msgFg, message, excText)
    ensures MessageLaidOut(line, ms, msgFg, " " + message, Tail(excText))
  {
    var text, tail := " " + message, Tail(excText);
    var seg := MessageColored(msgFg, message, excText);
    var a := [Code(ForeCode(msgFg))] + Lit(text);
    var b := a + [Reset];
    assert seg == b + Lit(tail);
    forall k | 0 <= k < |seg|
      ensures line[ms + k] == MessagePiece(msgFg, text, tail, k)
    {
      assert line[ms + k] == seg[k];
      if k == 0 {
        assert seg[k] == b[k] == a[k];
      } else if k <= |text| {
        assert seg[k] == b[k] == a[k] == Lit(text)[k - 1];
        LitIndex(text, k - 1);
      } else if k == |text| + 1 {
        assert seg[k] == b[k];
      } else {
        assert seg[k] == Lit(tail)[k - |b|];
        LitIndex(tail, k - |b|);
      }
    }
  }

  /** The timestamp segment opens the line `format` returns: black on
      white, the timestamp verbatim between two spaces, a reset, and an arrow
      from white into the level's background. */
  lemma TimeLayout(record: LogRecord, ts: string)
    ensures SegmentLaidOut(Format(record, ts), 0, [BackCode(Back.WHITE), ForeCode(Fore.BLACK)], " " + ts + " ",
                           [BackCode(LevelBackground(record.levelname)), ForeCode(Fore.WHITE)])
  {
    var line := Format(record, ts);
    var levelBg := LevelBackground(record.levelname);
    assert line[0..|ts| + 9] == TimeColored(ts, levelBg) by {
      FormatSplit(record, ts);
      assert line[0..|ts| + 9] == line[..|ts| + 9];
    }
    SegmentAt(line, 0, [BackCode(Back.WHITE), ForeCode(Fore.BLACK)], " " + ts + " ",
              [BackCode(levelBg), ForeCode(Fore.WHITE)]);
  }

  /** The level segment follows it: the level's background, the level name
      left-justified to 8 columns verbatim between two spaces, a reset, and
      an arrow from that background into cyan. */
  lemma LevelLayout(record: LogRecord, ts: string)
    ensures var levelBg, pad := LevelBackground(record.levelname), LeftJustify(record.levelname, LevelWidth);
      SegmentLaidOut(Format(record, ts), |ts| + 9, [BackCode(levelBg)], " " + pad + " ",
                     [BackCode(Back.CYAN), ForeCode(Bg2Fg[levelBg])])
  {
    var line := Format(record, ts);
    var levelBg := LevelBackground(record.levelname);
    var pad := LeftJustify(record.levelname, LevelWidth);
    Bg2FgTotal(levelBg);
    assert line[|ts| + 9..|ts| + |pad| + 17] == LevelColored(record.levelname, levelBg) by {
      FormatSplit(record, ts);
    }
    SegmentAt(line, |ts| + 9, [BackCode(levelBg)], " " + pad + " ",
              [BackCode(Back.CYAN), ForeCode(Bg2Fg[levelBg])]);
  }

  /** The logger-name segment follows: cyan, the logger name verbatim
      between two spaces, a reset, and a cyan arrow. */
  lemma NameLayout(record: LogRecord, ts: string)
    ensures var nm := |ts| + |LeftJustify(record.levelname, LevelWidth)| + 17;
      SegmentLaidOut(Format(record, ts), nm, [BackCode(Back.CYAN)], " " + record.name + " ", [ForeCode(Fore.CYAN)])
  {
    var line := Format(record, ts);
    var nm := |ts| + |LeftJustify(record.levelname, LevelWidth)| + 17;
    assert line[nm..nm + |record.name| + 7] == NameColored(record.name) by {
      FormatSplit(record, ts);
    }
    NameArrowCyan(record.name);
    SegmentAt(line, nm, [BackCode(Back.CYAN)], " " + record.name + " ", [ForeCode(Fore.CYAN)]);
  }

  /** The message segment ends the line: the level's message foreground,
      the message verbatim after one space, a reset, then the exception
      text, uncoloured. */
  lemma MessageLayout(record: LogRecord, ts: string)
    ensures var ms := |ts| + |LeftJustify(record.levelname, LevelWidth)| + |record.name| + 24;
      MessageLaidOut(Format(record, ts), ms, MessageForeground(record.levelname), " " + record.message,
                     Tail(record.excText))
  {
    var line := Format(record, ts);
    var msgFg := MessageForeground(record.levelname);
    var ms := |ts| + |LeftJustify(record.levelname, LevelWidth)| + |record.name| + 24;
    assert line[ms..] == MessageColored(msgFg, record.message, record.excText) by {
      FormatSplit(record, ts);
    }
    MessageAt(line, ms, msgFg, record.message, record.excText);
  }

  /** Without exception text the line ends with a reset: no colour leaks
      into whatever the terminal prints next. */
  lemma NoExceptionEndsInReset(record: LogRecord, ts: string)
    requires record.excText.None?
    ensures Format(record, ts)[|Format(record, ts)| - 1] == Reset
  {
    var line, text := Format(record, ts), " " + record.message;
    var ms := |ts| + |LeftJustify(record.levelname, LevelWidth)| + |record.name| + 24;
    MessageLayout(record, ts);
    assert Tail(record.excText) == "";
    assert line[ms + |text| + 1] == MessagePiece(MessageForeground(record.levelname), text, "", |text| + 1);
  }

  /** With exception text, the line is the line the same record gives
      without it, followed by a newline and the text, uncoloured: nothing
      else changes. */
  lemma ExceptionAppended(record: LogRecord, ts: string)
    requires record.excText.Some?
    ensures Format(record, ts) == Format(record.(excText := None), ts) + Lit("\n" + record.excText.value)
  {
    var levelBg := LevelBackground(record.levelname);
    var msgFg := MessageForeground(record.levelname);
    var head := TimeColored(ts, levelBg) + LevelColored(record.levelname, levelBg)
                + NameColored(record.name);
    var bare := [Code(ForeCode(msgFg))] + Lit(" " + record.message) + [Reset];
    var tail := Lit(Tail(record.excText));
    assert Lit(Tail(None)) == [];
    assert MessageColored(msgFg, record.message, None) == bare;
    assert Format(record.(excText := None), ts) == head + bare;
    assert Format(record, ts) == head + (bare + tail);
  }
}
