/** The admin console's command handler: the received line is trimmed,
    split into a command word and an argument, matched case-insensitively
    against the known commands, and answered; the only state it changes is
    the session's `show_logs` flag (0 quiet, 1 streaming, -1 disconnect). */
module AdminHandler {
  import opened Common

  // ---------------------------------------------------------------------
  // Characters

  /** The characters `isspace` accepts in the C locale. */
  const SPACES: string := [' ', '\t', '\n', 11 as char, 12 as char, '\r']

  predicate IsSpace(c: char)
  {
    c in SPACES
  }

  predicate AllSpace(s: string)
  {
    forall i :: 0 <= i < |s| ==> IsSpace(s[i])
  }

  /** ASCII `tolower`, as `strcasecmp` applies it in the C locale. */
  function Lower(c: char): char
  {
    if 'A' <= c <= 'Z' then (c as int + 32) as char else c
  }

  /** `strcasecmp(a, b) == 0`. */
  predicate SameIgnoringCase(a: string, b: string)
  {
    |a| == |b| && forall i :: 0 <= i < |a| ==> Lower(a[i]) == Lower(b[i])
  }

  // ---------------------------------------------------------------------
  // trim_whitespace

  /** `s` without its trailing whitespace. */
  function RStrip(s: string): (r: string)
    ensures |r| <= |s| && r == s[..|r|]
    ensures r == [] || !IsSpace(r[|r| - 1])
    ensures forall i :: |r| <= i < |s| ==> IsSpace(s[i])
  {
    if s == [] || !IsSpace(s[|s| - 1]) then s else RStrip(s[..|s| - 1])
  }

  /** The string the caller sees after `trim_whitespace`: trailing
      whitespace cut, leading whitespace kept (only the helper's local `str`
      moves past it), and a string of nothing but whitespace left as it is. */
  function Trimmed(s: string): (r: string)
    ensures |r| <= |s| && r == s[..|r|]
    ensures AllSpace(s) ==> r == s
    ensures !AllSpace(s) ==>
      |r| > 0 && !IsSpace(r[|r| - 1]) && forall i :: |r| <= i < |s| ==> IsSpace(s[i])
    ensures r == [] <==> s == []
  {
    if AllSpace(s) then s else RStrip(s)
  }

  /** The stripped string ends at the last non-space character. */
  lemma RStripAt(s: string, e: nat)
    requires e < |s| && !IsSpace(s[e])
    requires forall i :: e < i < |s| ==> IsSpace(s[i])
    ensures RStrip(s) == s[..e + 1]
  {
    var r := RStrip(s);
    assert e < |r|;
    assert r[|r| - 1] == s[|r| - 1];
  }

  /** Length of the C string held in `b`: the index of its first NUL. */
  function StrLen(b: seq<char>): (n: nat)
    requires '\0' in b
    ensures n < |b| && b[n] == '\0'
    ensures forall i :: 0 <= i < n ==> b[i] != '\0'
  {
    if b[0] == '\0' then 0 else
      assert '\0' in b[1..] by {
        var k :| 0 <= k < |b| && b[k] == '\0';
        assert b[1..][k - 1] == '\0';
      }
      1 + StrLen(b[1..])
  }

  lemma StrLenAt(b: seq<char>, n: nat)
    requires n < |b| && b[n] == '\0'
    requires forall i :: 0 <= i < n ==> b[i] != '\0'
    ensures StrLen(b) == n
  {
  }

  /** The C string held in `b`. */
  function CStr(b: seq<char>): (s: string)
    requires '\0' in b
    ensures '\0' !in s
  {
    b[..StrLen(b)]
  }

  /** The buffer after `trim_whitespace`: unchanged when its string is
      all whitespace, otherwise with a NUL just after the last non-space
      character. */
  function TrimmedBuffer(b: seq<char>): (r: seq<char>)
    requires '\0' in b
    ensures |r| == |b| && '\0' in r
    ensures CStr(r) == Trimmed(CStr(b))
    ensures forall i :: 0 <= i < |b| && i != |Trimmed(CStr(b))| ==> r[i] == b[i]
  {
    var s := CStr(b);
    if AllSpace(s) then b
    else
      var m := |RStrip(s)|;
      var r := b[m := '\0'];
      StrLenAt(r, m);
      assert r[..m] == RStrip(s);
      r
  }

  /** `trim_whitespace` on the NUL-terminated buffer `buf`. */
  method TrimWhitespace(buf: array<char>)
    requires '\0' in buf[..]
    modifies buf
    ensures buf[..] == TrimmedBuffer(old(buf[..]))
  {
    ghost var b := buf[..];
    ghost var n := StrLen(b);
    var start := 0;
    while IsSpace(buf[start])
      invariant 0 <= start <= n
      invariant forall k :: 0 <= k < start ==> IsSpace(buf[k])
      decreases n - start
    {
      start := start + 1;
    }
    if buf[start] == '\0' {
      assert start == n;
      assert AllSpace(CStr(b)) by {
        assert forall k :: 0 <= k < n ==> CStr(b)[k] == b[k];
      }
      return;
    }
    var len := start;
    while buf[len] != '\0'
      invariant start <= len <= n
      decreases n - len
    {
      len := len + 1;
    }
    var end := len - 1;
    while end > start && IsSpace(buf[end])
      invariant start <= end < len
      invariant forall k :: end < k < len ==> IsSpace(buf[k])
      decreases end
    {
      end := end - 1;
    }
    ghost var s := CStr(b);
    assert len == n && |s| == n;
    assert !IsSpace(s[end]) && forall k :: end < k < |s| ==> IsSpace(s[k]);
    RStripAt(s, end);
    TrimmedAt(b, end);
    buf[end + 1] := '\0';
    assert buf[..] == b[end + 1 := '\0'];
  }

  /** A buffer whose string has a non-space character, the last one at
      `e`, is trimmed by a NUL at `e + 1`. */
  lemma TrimmedAt(b: seq<char>, e: nat)
    requires '\0' in b && e < StrLen(b) && !IsSpace(b[e])
    requires RStrip(CStr(b)) == CStr(b)[..e + 1]
    ensures TrimmedBuffer(b) == b[e + 1 := '\0']
  {
    assert CStr(b)[e] == b[e];
  }

  // ---------------------------------------------------------------------
  // strtok

  const CMD_DELIMS: string := " \t\n"
  const ARG_DELIMS: string := "\n"

  /** The first index from `i` on whose character is not in `d`. */
  function SkipIn(t: string, i: nat, d: string): (r: nat)
    requires i <= |t|
    ensures i <= r <= |t|
    ensures forall k :: i <= k < r ==> t[k] in d
    ensures r < |t| ==> t[r] !in d
    decreases |t| - i
  {
    if i == |t| || t[i] !in d then i else SkipIn(t, i + 1, d)
  }

  /** The first index from `i` on whose character is in `d`. */
  function SkipOut(t: string, i: nat, d: string): (r: nat)
    requires i <= |t|
    ensures i <= r <= |t|
    ensures forall k :: i <= k < r ==> t[k] !in d
    ensures r < |t| ==> t[r] in d
    decreases |t| - i
  {
    if i == |t| || t[i] in d then i else SkipOut(t, i + 1, d)
  }

  /** A run that lasts to the end is skipped entirely. */
  lemma SkipInAll(t: string, i: nat, d: string)
    requires i <= |t| && forall k :: i <= k < |t| ==> t[k] in d
    ensures SkipIn(t, i, d) == |t|
  {
  }

  /** `strtok(t, " \t\n")`: the first maximal run of non-delimiters, and
      the index the next call resumes from (just past the delimiter that
      ended the run, which `strtok` overwrites). No token at all when `t` is
      delimiters only. */
  function FirstToken(t: string): (r: Option<(string, nat)>)
    ensures r.None? <==> forall k :: 0 <= k < |t| ==> t[k] in CMD_DELIMS
    ensures r.Some? ==>
      var (tok, p) := r.value;
      && |tok| > 0 && p <= |t|
      && (forall k :: 0 <= k < |tok| ==> tok[k] !in CMD_DELIMS)
  {
    var a := SkipIn(t, 0, CMD_DELIMS);
    if a == |t| then None
    else
      var b := SkipOut(t, a, CMD_DELIMS);
      Some((t[a..b], if b < |t| then b + 1 else b))
  }

  /** `strtok(NULL, "\n")` resuming at `p`: the next run of characters
      other than newline, which may start with blanks. */
  function NextToken(t: string, p: nat): (r: Option<string>)
    requires p <= |t|
    ensures r.None? <==> forall k :: p <= k < |t| ==> t[k] == '\n'
    ensures r.Some? ==> |r.value| > 0 && forall k :: 0 <= k < |r.value| ==> r.value[k] != '\n'
  {
    var a := SkipIn(t, p, ARG_DELIMS);
    if a == |t| then None else Some(t[a..SkipOut(t, a, ARG_DELIMS)])
  }

  // ---------------------------------------------------------------------
  // atoi and %d

  const DIGITS: string := "0123456789"

  function DigitChar(d: nat): (c: char)
    requires d < 10
    ensures c in DIGITS && '0' <= c <= '9'
  {
    ('0' as int + d) as char
  }

  /** The value of a string of decimal digits. */
  function DigitsValue(ds: string): nat
    requires forall k :: 0 <= k < |ds| ==> ds[k] in DIGITS
  {
    if ds == [] then 0 else DigitsValue(ds[..|ds| - 1]) * 10 + (ds[|ds| - 1] as int - '0' as int)
  }

  /** `n` in decimal without leading zeros. */
  function DigitsOf(n: nat): (s: string)
    ensures |s| > 0 && forall k :: 0 <= k < |s| ==> s[k] in DIGITS
  {
    if n < 10 then [DigitChar(n)] else DigitsOf(n / 10) + [DigitChar(n % 10)]
  }

  /** `printf("%d", n)`. */
  function Decimal(n: int): string
  {
    if n < 0 then "-" + DigitsOf(-n) else DigitsOf(n)
  }

  /** `atoi(s)`: leading whitespace, an optional sign, then as many digits
      as follow; anything else ends the number, and no digits give 0. */
  function Atoi(s: string): int
  {
    var i := SkipIn(s, 0, SPACES);
    if i < |s| && s[i] == '-' then -(LeadingDigits(s, i + 1) as int)
    else if i < |s| && s[i] == '+' then LeadingDigits(s, i + 1)
    else LeadingDigits(s, i)
  }

  /** The value of the run of digits starting at `j`. */
  function LeadingDigits(s: string, j: nat): nat
    requires j <= |s|
  {
    var k := SkipIn(s, j, DIGITS);
    assert forall q :: 0 <= q < k - j ==> s[j..k][q] == s[j + q];
    DigitsValue(s[j..k])
  }

  lemma LeadingDigitsAll(s: string, j: nat)
    requires j <= |s| && forall k :: j <= k < |s| ==> s[k] in DIGITS
    ensures forall k :: 0 <= k < |s[j..]| ==> s[j..][k] in DIGITS
    ensures LeadingDigits(s, j) == DigitsValue(s[j..])
  {
    SkipInAll(s, j, DIGITS);
    assert s[j..|s|] == s[j..];
  }

  lemma {:induction false} DigitsValueOf(n: nat)
    ensures DigitsValue(DigitsOf(n)) == n
  {
    var s := DigitsOf(n);
    if n >= 10 {
      DigitsValueOf(n / 10);
      assert s[..|s| - 1] == DigitsOf(n / 10);
    }
  }

  lemma DigitIsNoSign(c: char)
    requires c in DIGITS
    ensures c !in SPACES && c != '-' && c != '+'
  {
  }

  /** `atoi` of a string starting with neither whitespace nor a sign. */
  lemma AtoiPlain(s: string)
    requires |s| > 0 && s[0] !in SPACES && s[0] != '-' && s[0] != '+'
    ensures Atoi(s) == LeadingDigits(s, 0)
  {
    var i := SkipIn(s, 0, SPACES);
    assert i == 0;
  }

  /** `atoi` on digits alone reads their value. */
  lemma AtoiUnsigned(ds: string)
    requires |ds| > 0 && forall k :: 0 <= k < |ds| ==> ds[k] in DIGITS
    ensures Atoi(ds) == DigitsValue(ds)
  {
    DigitIsNoSign(ds[0]);
    AtoiPlain(ds);
    LeadingDigitsAll(ds, 0);
    assert ds[0..] == ds;
  }

  lemma MinusDigits(ds: string)
    requires |ds| > 0 && forall k :: 0 <= k < |ds| ==> ds[k] in DIGITS
    ensures var s := "-" + ds;
      && s[0] == '-' && s[1..] == ds
      && forall k :: 1 <= k < |s| ==> s[k] in DIGITS
  {
    var s := "-" + ds;
    forall k | 1 <= k < |s| ensures s[k] in DIGITS {
      assert s[k] == ds[k - 1];
    }
  }

  /** `atoi` of a string starting with a minus sign. */
  lemma AtoiMinus(s: string)
    requires |s| > 0 && s[0] == '-'
    ensures Atoi(s) == -(LeadingDigits(s, 1) as int)
  {
    assert s[0] !in SPACES;
    var i := SkipIn(s, 0, SPACES);
    assert i == 0;
  }

  /** `atoi` on a minus sign and digits reads the negated value. */
  lemma AtoiNegative(ds: string)
    requires |ds| > 0 && forall k :: 0 <= k < |ds| ==> ds[k] in DIGITS
    ensures Atoi("-" + ds) == -(DigitsValue(ds) as int)
  {
    MinusDigits(ds);
    AtoiMinus("-" + ds);
    LeadingDigitsAll("-" + ds, 1);
  }

  /** `atoi` reads back the number `%d` printed. */
  lemma AtoiDecimal(n: int)
    ensures Atoi(Decimal(n)) == n
  {
    if n < 0 {
      DigitsValueOf(-n);
      AtoiNegative(DigitsOf(-n));
    } else {
      DigitsValueOf(n);
      AtoiUnsigned(DigitsOf(n));
    }
  }

  // ---------------------------------------------------------------------
  // handle_admin_command

  datatype Command =
    | Help | ShowLogs | StopLogs | KickClient | SetMaxUploads | SetMaxDownloads
    | ShowClients | ShowQueue | Exit | Unknown

  /** The command word as the handler spells it. */
  function Word(c: Command): string
  {
    match c
    case Help => "HELP"
    case ShowLogs => "SHOW_LOGS"
    case StopLogs => "STOP_LOGS"
    case KickClient => "KICK_CLIENT"
    case SetMaxUploads => "SET_MAX_UPLOADS"
    case SetMaxDownloads => "SET_MAX_DOWNLOADS"
    case ShowClients => "SHOW_CLIENTS"
    case ShowQueue => "SHOW_QUEUE"
    case Exit => "EXIT"
    case Unknown => ""
  }

  /** The `strcasecmp` chain, tried in the handler's order. */
  function Classify(cmd: string): Command
  {
    if SameIgnoringCase(cmd, "HELP") then Help
    else if SameIgnoringCase(cmd, "SHOW_LOGS") then ShowLogs
    else if SameIgnoringCase(cmd, "STOP_LOGS") then StopLogs
    else if SameIgnoringCase(cmd, "KICK_CLIENT") then KickClient
    else if SameIgnoringCase(cmd, "SET_MAX_UPLOADS") then SetMaxUploads
    else if SameIgnoringCase(cmd, "SET_MAX_DOWNLOADS") then SetMaxDownloads
    else if SameIgnoringCase(cmd, "SHOW_CLIENTS") then ShowClients
    else if SameIgnoringCase(cmd, "SHOW_QUEUE") then ShowQueue
    else if SameIgnoringCase(cmd, "EXIT") then Exit
    else Unknown
  }

  /** A command word is recognised exactly when it equals one of the
      known words up to case; an unknown word matches none of them. */
  lemma ClassifyIff(cmd: string, c: Command)
    requires c != Unknown
    ensures Classify(cmd) == c <==> SameIgnoringCase(cmd, Word(c))
  {
    if SameIgnoringCase(cmd, Word(c)) && Classify(cmd) != c {
      var d := Classify(cmd);
      if d != Unknown {
        WordsDistinct(c, d);
      }
    }
  }

  /** No two command words are equal up to case. */
  lemma WordsDistinct(c: Command, d: Command)
    requires c != Unknown && d != Unknown && c != d
    ensures forall s :: !(SameIgnoringCase(s, Word(c)) && SameIgnoringCase(s, Word(d)))
  {
    var a, b := Word(c), Word(d);
    // the same-length pairs are HELP/EXIT and SHOW_LOGS/STOP_LOGS
    assert |a| != |b| || Lower(a[1]) != Lower(b[1]);
  }

  const PROMPT: string := "admin> "

  const HELP_TEXT: string :=
    "Available commands:\n"
    + "  HELP\n"
    + "      Show this help message.\n\n"
    + "  SHOW_CLIENTS\n"
    + "      List all currently connected clients.\n\n"
    + "  SHOW_QUEUE\n"
    + "      Display the processing queue.\n\n"
    + "  KICK_CLIENT <client_id>\n"
    + "      Disconnect a specific client by ID.\n\n"
    + "  SET_MAX_UPLOADS <number>\n"
    + "      Set the maximum number of simultaneous uploads.\n\n"
    + "  SET_MAX_DOWNLOADS <number>\n"
    + "      Set the maximum number of simultaneous downloads.\n\n"
    + "  SHOW_LOGS\n"
    + "      Stream logs from the server in real-time (tail -f style).\n\n"
    + "  STOP_LOGS\n"
    + "      Stop receiving real-time log updates.\n\n"
    + "  EXIT\n"
    + "      Close the admin session.\n\n"

  const USAGE_KICK: string := "Usage: KICK_CLIENT <id>\n"
  const USAGE_UPLOADS: string := "Usage: SET_MAX_UPLOADS <n>\n"
  const USAGE_DOWNLOADS: string := "Usage: SET_MAX_DOWNLOADS <n>\n"

  /** `send(fd, text, count, 0)`: the first `count` characters go out. */
  function Send(text: string, count: nat): (r: string)
    ensures |r| == Min(count, |text|) && r == text[..|r|]
  {
    text[..Min(count, |text|)]
  }

  /** What the console receives, and the new `show_logs`. */
  datatype Reply = Reply(text: string, showLogs: int)

  /** The answer to a recognised command word `c` with argument `arg`. */
  function Respond(c: Command, arg: Option<string>, flag: int): Reply
  {
    match c
    case Help => Reply(HELP_TEXT + PROMPT, flag)  // sent with its full `strlen`
    case ShowLogs => Reply(Send("[Streaming logs]\n", 17), 1)
    case StopLogs => Reply(Send("[Log streaming stopped]\n", 24) + PROMPT, 0)
    case KickClient =>
      if arg.None? then Reply(Send(USAGE_KICK, 23) + PROMPT, flag)
      else Reply("Kicked client " + arg.value + " (placeholder).\n" + PROMPT, flag)
    case SetMaxUploads =>
      if arg.None? then Reply(Send(USAGE_UPLOADS, 26) + PROMPT, flag)
      else Reply("Set max uploads to " + Decimal(Atoi(arg.value)) + " (placeholder).\n" + PROMPT, flag)
    case SetMaxDownloads =>
      if arg.None? then Reply(Send(USAGE_DOWNLOADS, 28) + PROMPT, flag)
      else Reply("Set max downloads to " + Decimal(Atoi(arg.value)) + " (placeholder).\n" + PROMPT, flag)
    case ShowClients => Reply(Send("[Connected clients listing not yet implemented]\n", 48) + PROMPT, flag)
    case ShowQueue => Reply(Send("[Queue display not yet implemented]\n", 36) + PROMPT, flag)
    case Exit => Reply(Send("Goodbye.\n", 9), -1)
    case Unknown => Reply(Send("Unknown command.\n", 17) + PROMPT, flag)
  }

  /** `handle_admin_command` as written. `None` is the call
      `strcasecmp(NULL, "HELP")` that follows when the line is not empty but
      holds only spaces, tabs and newlines: `trim_whitespace` leaves such a
      line as it is, the empty-line test passes it on, and `strtok` finds no
      command word. */
  function HandleAsWritten(input: string, flag: int): Option<Reply>
  {
    var t := Trimmed(input);
    if |t| == 0 then Some(Reply(PROMPT, flag))
    else
      match FirstToken(t)
      case None => None
      case Some((cmd, p)) => Some(Respond(Classify(cmd), NextToken(t, p), flag))
  }

  /** `handle_admin_command` with a line of blanks treated like an empty
      line: only the prompt, `show_logs` unchanged. */
  function HandleAdminCommand(input: string, flag: int): Reply
  {
    var t := Trimmed(input);
    if |t| == 0 then Reply(PROMPT, flag)
    else
      match FirstToken(t)
      case None => Reply(PROMPT, flag)
      case Some((cmd, p)) => Respond(Classify(cmd), NextToken(t, p), flag)
  }

  /** The command word of a line, if it has one. */
  function CommandWord(input: string): (r: Option<string>)
    ensures r.Some? ==> |r.value| > 0 && forall k :: 0 <= k < |r.value| ==> r.value[k] !in CMD_DELIMS
  {
    match FirstToken(Trimmed(input))
    case None => None
    case Some((cmd, _)) => Some(cmd)
  }

  /** The handler as written fails exactly on a non-empty line of spaces,
      tabs and newlines. */
  lemma AsWrittenFailsIff(input: string, flag: int)
    ensures HandleAsWritten(input, flag).None? <==>
      input != [] && forall k :: 0 <= k < |input| ==> input[k] in CMD_DELIMS
  {
    var t := Trimmed(input);
    if input != [] && forall k :: 0 <= k < |input| ==> input[k] in CMD_DELIMS {
      assert AllSpace(input) by {
        forall k | 0 <= k < |input| ensures IsSpace(input[k]) {
          assert input[k] in CMD_DELIMS;
        }
      }
      assert t == input;
    }
    if HandleAsWritten(input, flag).None? {
      assert |t| > 0 && t[|t| - 1] in CMD_DELIMS;
      assert IsSpace(t[|t| - 1]);
    }
  }

  /** A blank line, the most ordinary input there is, reaches
      `strcasecmp` with no command word. */
  lemma BlankLineFails()
    ensures HandleAsWritten("\n", 0).None?
    ensures HandleAdminCommand("\n", 0) == Reply(PROMPT, 0)
  {
    AsWrittenFailsIff("\n", 0);
  }

  /** Wherever the handler as written answers, the corrected one answers
      the same; where it fails, the corrected one sends the prompt and
      leaves `show_logs` alone. */
  lemma IntendedAgrees(input: string, flag: int)
    ensures HandleAsWritten(input, flag).Some? ==>
      HandleAdminCommand(input, flag) == HandleAsWritten(input, flag).value
    ensures HandleAsWritten(input, flag).None? ==>
      HandleAdminCommand(input, flag) == Reply(PROMPT, flag)
  {
  }

  /** The empty line only gets the prompt. */
  lemma EmptyLinePromptOnly(flag: int)
    ensures HandleAdminCommand("", flag) == Reply(PROMPT, flag)
  {
  }

  /** `show_logs` becomes 1 after SHOW_LOGS, 0 after STOP_LOGS and -1
      after EXIT, matched in any case, and stays as it was after
      anything else. */
  lemma FlagTransitions(input: string, flag: int)
    ensures var r := HandleAdminCommand(input, flag);
      match CommandWord(input)
      case None => r.showLogs == flag
      case Some(cmd) =>
        && (SameIgnoringCase(cmd, "SHOW_LOGS") ==> r.showLogs == 1)
        && (SameIgnoringCase(cmd, "STOP_LOGS") ==> r.showLogs == 0)
        && (SameIgnoringCase(cmd, "EXIT") ==> r.showLogs == -1)
        && ((!SameIgnoringCase(cmd, "SHOW_LOGS") && !SameIgnoringCase(cmd, "STOP_LOGS")
             && !SameIgnoringCase(cmd, "EXIT")) ==> r.showLogs == flag)
  {
    var t := Trimmed(input);
    if CommandWord(input).Some? {
      var cmd := CommandWord(input).value;
      ClassifyIff(cmd, ShowLogs);
      ClassifyIff(cmd, StopLogs);
      ClassifyIff(cmd, Exit);
    }
  }

  predicate EndsWithPrompt(text: string)
  {
    |text| >= |PROMPT| && text[|text| - |PROMPT|..] == PROMPT
  }

  lemma PromptSuffix(a: string)
    ensures EndsWithPrompt(a + PROMPT)
  {
    assert (a + PROMPT)[|a|..] == PROMPT;
  }

  /** Every answer to a command word ends with the prompt except those to
      SHOW_LOGS, which starts streaming, and EXIT, which ends the session. */
  lemma RespondPrompt(c: Command, arg: Option<string>, flag: int)
    ensures EndsWithPrompt(Respond(c, arg, flag).text) <==> c != ShowLogs && c != Exit
  {
    var text := Respond(c, arg, flag).text;
    if c == ShowLogs || c == Exit {
      assert text[|text| - 1] == '\n' != PROMPT[|PROMPT| - 1];
    } else {
      match c
      case Help => PromptSuffix(HELP_TEXT);
      case StopLogs => PromptSuffix(Send("[Log streaming stopped]\n", 24));
      case KickClient =>
        if arg.None? { PromptSuffix(Send(USAGE_KICK, 23)); }
        else { PromptSuffix("Kicked client " + arg.value + " (placeholder).\n"); }
      case SetMaxUploads =>
        if arg.None? { PromptSuffix(Send(USAGE_UPLOADS, 26)); }
        else { PromptSuffix("Set max uploads to " + Decimal(Atoi(arg.value)) + " (placeholder).\n"); }
      case SetMaxDownloads =>
        if arg.None? { PromptSuffix(Send(USAGE_DOWNLOADS, 28)); }
        else { PromptSuffix("Set max downloads to " + Decimal(Atoi(arg.value)) + " (placeholder).\n"); }
      case ShowClients => PromptSuffix(Send("[Connected clients listing not yet implemented]\n", 48));
      case ShowQueue => PromptSuffix(Send("[Queue display not yet implemented]\n", 36));
      case Unknown => PromptSuffix(Send("Unknown command.\n", 17));
    }
  }

  /** A line with no command word gets only the prompt; otherwise the
      answer ends with the prompt unless the command is SHOW_LOGS or EXIT. */
  lemma PromptFollows(input: string, flag: int)
    ensures var r := HandleAdminCommand(input, flag);
      match CommandWord(input)
      case None => r.text == PROMPT
      case Some(cmd) =>
        var c := Classify(cmd);
        EndsWithPrompt(r.text) <==> c != ShowLogs && c != Exit
  {
    var t := Trimmed(input);
    if CommandWord(input).Some? {
      var (cmd, p) := FirstToken(t).value;
      RespondPrompt(Classify(cmd), NextToken(t, p), flag);
    }
  }

  /** KICK_CLIENT, SET_MAX_UPLOADS and SET_MAX_DOWNLOADS without an
      argument answer with their usage line minus its final newline, then
      the prompt, and change nothing. */
  lemma UsageDropsNewline(c: Command, flag: int)
    requires c == KickClient || c == SetMaxUploads || c == SetMaxDownloads
    ensures var usage := match c
        case KickClient => USAGE_KICK
        case SetMaxUploads => USAGE_UPLOADS
        case _ => USAGE_DOWNLOADS;
      && usage[|usage| - 1] == '\n'
      && Respond(c, None, flag) == Reply(usage[..|usage| - 1] + PROMPT, flag)
  {
  }

  /** SET_MAX_UPLOADS and SET_MAX_DOWNLOADS with a number only echo it:
      the flag is unchanged and no limit exists to change. */
  lemma SetMaxEchoes(n: int, flag: int)
    ensures Respond(SetMaxUploads, Some(Decimal(n)), flag) ==
      Reply("Set max uploads to " + Decimal(n) + " (placeholder).\n" + PROMPT, flag)
    ensures Respond(SetMaxDownloads, Some(Decimal(n)), flag) ==
      Reply("Set max downloads to " + Decimal(n) + " (placeholder).\n" + PROMPT, flag)
  {
    AtoiDecimal(n);
  }
}
