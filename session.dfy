/**
 * One client session of the line server (`handle_client`): each raw input
 * line is normalised, dispatched on its prefix and answered from the shared,
 * read-only line store; `QUIT` and `SHUTDOWN` end the session with a control
 * message for the coordinator.
 */
module Session {
  import opened Wrappers
  import opened Text

  /** The control messages a session sends to the coordinator. */
  datatype Message = Shutdown | Quit(id: u16)

  /** Whether the session loop goes on after a command, and how it ends if not. */
  datatype Outcome = Continue | EndShutdown | EndQuit

  /** What handling one command does: at most one response written, and the outcome. */
  datatype Reply = Reply(outcome: Outcome, response: Option<string>)

  /** What a whole session wrote, and the control message it sent when it ended (`None`: still reading). */
  datatype Trace = Trace(writes: seq<string>, sent: Option<Message>)

  const VALID_COMMANDS := "`GET nnnn | QUIT | SHUTDOWN`"

  // ---------------------------------------------------------------------
  // Normalisation and responses
  // ---------------------------------------------------------------------

  /** A line as `read_line` delivers it when the client ended it with a line feed. */
  predicate Terminated(raw: string) { |raw| > 0 && raw[|raw| - 1] == '\n' }

  /**
   * The command text: one trailing `'\n'` removed and the rest upper-cased; a
   * line with no trailing `'\n'` (end of input) becomes the empty command.
   */
  function Normalize(raw: string): (cmd: string)
    ensures NoLower(cmd)
    ensures Terminated(raw) ==> |cmd| == |raw| - 1
    ensures !Terminated(raw) ==> cmd == ""
  {
    if Terminated(raw) then Upper(raw[..|raw| - 1]) else ""
  }

  /**
   * Exactly one line feed is removed: putting it back gives the raw line
   * upper-cased, so inner line feeds and a second trailing one survive.
   */
  lemma NormalizeStripsOneLineFeed(raw: string)
    requires Terminated(raw)
    ensures Normalize(raw) + "\n" == Upper(raw)
  {
    var body := raw[..|raw| - 1];
    assert raw == body + "\n";
    UpperConcat(body, "\n");
  }

  function OkResponse(line: string): string
  {
    "Ok\r\n" + line + "\r\n"
  }

  function OutOfRangeResponse(n: u16, available: nat): string
  {
    "Err - failed to retrieve line " + Decimal(n as nat) + ". There are only "
      + Decimal(available) + " lines available.\r\n"
  }

  function BadIndexResponse(kind: IntErrorKind, token: string): string
  {
    "Err - " + ErrorDetail(kind) + ". Is " + token + " an unsigned integer under 65536?\r\n"
  }

  function InvalidCommandResponse(cmd: string): string
  {
    "Err - " + cmd + " is an invalid command. " + VALID_COMMANDS + " are valid commands.\r\n"
  }

  // ---------------------------------------------------------------------
  // Dispatch of one command
  // ---------------------------------------------------------------------

  /**
   * The `GET` branch: the second space-separated token is parsed as a `u16`
   * and looked up 0-based; no second token means nothing is written.
   */
  function GetResponse(cmd: string, lines: seq<string>): Option<string>
  {
    var tokens := Split(cmd, ' ');
    if |tokens| < 2 then None
    else
      match ParseU16(tokens[1])
      case Success(n) =>
        if (n as int) < |lines| then Some(OkResponse(lines[n])) else Some(OutOfRangeResponse(n, |lines|))
      case Failure(kind) => Some(BadIndexResponse(kind, tokens[1]))
  }

  /** Handling one raw input line: prefixes are tried in the order `GET`, `SHUTDOWN`, `QUIT`. */
  function Dispatch(raw: string, lines: seq<string>): (r: Reply)
    ensures r.outcome != Continue ==> r.response == None
  {
    var cmd := Normalize(raw);
    if StartsWith(cmd, "GET") then Reply(Continue, GetResponse(cmd, lines))
    else if StartsWith(cmd, "SHUTDOWN") then Reply(EndShutdown, None)
    else if StartsWith(cmd, "QUIT") then Reply(EndQuit, None)
    else Reply(Continue, Some(InvalidCommandResponse(cmd)))
  }

  // ---------------------------------------------------------------------
  // Properties of one command
  // ---------------------------------------------------------------------

  /** Upper-casing neither creates nor removes spaces. */
  lemma UpperNoSpace(s: string)
    requires ' ' !in s
    ensures ' ' !in Upper(s)
  {
    forall i | 0 <= i < |s| ensures Upper(s)[i] != ' ' {
      assert s[i] != ' ';
    }
  }

  /**
   * The lines the `GET` branch treats alike: a first word that starts with
   * `GET` once upper-cased (so `GETX` too), one space, a token without
   * spaces, then nothing or further space-separated text, which is ignored.
   */
  predicate GetShape(keyword: string, token: string, rest: string)
  {
    && StartsWith(Upper(keyword), "GET")
    && ' ' !in keyword
    && ' ' !in token
    && (rest == [] || rest[0] == ' ')
  }

  /** Such a line reaches the `GET` branch, and its second token is the upper-cased `token`. */
  lemma GetLineTokens(keyword: string, token: string, rest: string, lines: seq<string>)
    requires GetShape(keyword, token, rest)
    ensures var cmd := Upper(keyword) + " " + Upper(token) + Upper(rest);
      && Dispatch(keyword + " " + token + rest + "\n", lines) == Reply(Continue, GetResponse(cmd, lines))
      && |Split(cmd, ' ')| >= 2 && Split(cmd, ' ')[1] == Upper(token)
  {
    var raw := keyword + " " + token + rest + "\n";
    assert raw[..|raw| - 1] == keyword + " " + token + rest;
    UpperConcat(keyword + " " + token, rest);
    UpperConcat(keyword + " ", token);
    UpperConcat(keyword, " ");
    UpperFixesUpper(" ");
    var k, t, r := Upper(keyword), Upper(token), Upper(rest);
    var cmd := k + " " + t + r;
    assert Normalize(raw) == cmd;
    assert cmd[..3] == k[..3];
    UpperNoSpace(keyword);
    UpperNoSpace(token);
    assert cmd == k + [' '] + (t + r);
    SplitAtSeparator(k, t + r, ' ');
    if rest == [] {
      assert t + r == t;
      SplitWithoutSeparator(t, ' ');
    } else {
      assert r[0] == UpperChar(rest[0]);
      assert t + r == t + [' '] + r[1..];
      SplitAtSeparator(t, r[1..], ' ');
    }
  }

  /**
   * `GET <token>` where the upper-cased token parses as the `u16` `n` (so
   * `7`, `007` and `+7` alike): the line at 0-based index `n` when there is
   * one, otherwise the out-of-range error echoing `n` and the number of
   * lines; the session continues.
   */
  lemma GetByIndex(keyword: string, token: string, rest: string, n: u16, lines: seq<string>)
    requires GetShape(keyword, token, rest)
    requires ParseU16(Upper(token)) == Success(n)
    ensures Dispatch(keyword + " " + token + rest + "\n", lines)
         == Reply(Continue, Some(if (n as int) < |lines| then OkResponse(lines[n]) else OutOfRangeResponse(n, |lines|)))
  {
    GetLineTokens(keyword, token, rest, lines);
  }

  /** `GET n` with `n` written in decimal, the form the out-of-range error echoes. */
  lemma GetByDecimal(keyword: string, n: u16, lines: seq<string>)
    requires Upper(keyword) == "GET"
    ensures Dispatch(keyword + " " + Decimal(n as nat) + "\n", lines)
         == Reply(Continue, Some(if (n as int) < |lines| then OkResponse(lines[n]) else OutOfRangeResponse(n, |lines|)))
  {
    var digits := Decimal(n as nat);
    assert ' ' !in keyword by {
      UpperSameUpToCase(keyword, "GET");
      forall i | 0 <= i < |keyword| ensures keyword[i] != ' ' {
        assert SameLetter(keyword[i], "GET"[i]);
      }
    }
    assert ' ' !in digits by {
      forall i | 0 <= i < |digits| ensures digits[i] != ' ' {
        assert IsDigit(digits[i]);
      }
    }
    UpperFixesUpper(digits);
    ParseDecimal(n);
    assert keyword + " " + digits + [] + "\n" == keyword + " " + digits + "\n";
    GetByIndex(keyword, digits, [], n, lines);
  }

  /**
   * `GET <token>` where the upper-cased token is not a `u16`: the parse error
   * detail and the upper-cased token are echoed, and the session continues.
   */
  lemma GetBadToken(keyword: string, token: string, rest: string, lines: seq<string>, kind: IntErrorKind)
    requires GetShape(keyword, token, rest)
    requires ParseU16(Upper(token)) == Failure(kind)
    ensures Dispatch(keyword + " " + token + rest + "\n", lines)
         == Reply(Continue, Some(BadIndexResponse(kind, Upper(token))))
    ensures NoLower(Upper(token))
  {
    GetLineTokens(keyword, token, rest, lines);
  }

  /**
   * `GET <token>` where the token starts with neither a digit nor `+` (a
   * word such as `aoeu`, or a negative such as `-5`): an invalid digit.
   */
  lemma GetNonNumeric(keyword: string, token: string, rest: string, lines: seq<string>)
    requires GetShape(keyword, token, rest)
    requires |token| >= 1 && !IsDigit(token[0]) && token[0] != '+'
    ensures Dispatch(keyword + " " + token + rest + "\n", lines)
         == Reply(Continue, Some(BadIndexResponse(InvalidDigit, Upper(token))))
  {
    assert Upper(token)[0] == UpperChar(token[0]);
    LeadingNonDigit(Upper(token));
    GetBadToken(keyword, token, rest, lines, InvalidDigit);
  }

  /** A client that ends its lines with `"\r\n"` gets every index rejected: the `'\r'` is an invalid digit. */
  lemma GetCarriageReturn(n: u16, lines: seq<string>)
    ensures Dispatch("GET " + Decimal(n as nat) + "\r\n", lines)
         == Reply(Continue, Some(BadIndexResponse(InvalidDigit, Decimal(n as nat) + "\r")))
  {
    var digits := Decimal(n as nat);
    var token := digits + "\r";
    assert "GET " + digits + "\r\n" == "GET" + " " + token + [] + "\n";
    UpperFixesUpper(token);
    UpperFixesUpper("GET");
    HornerDecimal(n as nat);
    assert Unsigned(token) == token;
    assert Unsigned(token) == digits + ['\r'] + [];
    ParseU16InvalidDigit(token, digits, '\r', []);
    assert ' ' !in token by {
      forall i | 0 <= i < |digits| ensures token[i] != ' ' {
        assert IsDigit(digits[i]);
      }
    }
    GetBadToken("GET", token, [], lines, InvalidDigit);
  }

  /** Upper-casing keeps the line feed, so a prefix without one can be tested on the raw line. */
  lemma NormalizedPrefix(raw: string, prefix: string)
    requires Terminated(raw)
    requires '\n' !in prefix
    ensures StartsWith(Normalize(raw), prefix) <==> StartsWith(Upper(raw), prefix)
  {
    var body := raw[..|raw| - 1];
    assert raw == body + "\n";
    UpperConcat(body, "\n");
    assert Upper(raw) == Upper(body) + "\n";
    if |prefix| <= |body| {
      assert Upper(raw)[..|prefix|] == Upper(body)[..|prefix|];
    } else if |prefix| == |raw| {
      assert Upper(raw)[|raw| - 1] == '\n';
    }
  }

  /**
   * Keywords are matched without regard to case: two raw lines that differ
   * only in the case of their ASCII letters are handled identically.
   */
  lemma DispatchIgnoresCase(a: string, b: string, lines: seq<string>)
    requires SameUpToCase(a, b)
    ensures Dispatch(a, lines) == Dispatch(b, lines)
  {
    UpperSameUpToCase(a, b);
    assert |a| == |b|;
    if |a| > 0 {
      var n := |a| - 1;
      assert Upper(a)[n] == UpperChar(a[n]) && Upper(b)[n] == UpperChar(b[n]);
      assert a[n] == '\n' <==> b[n] == '\n';
      assert Upper(a[..n]) == Upper(b[..n]) by {
        forall i | 0 <= i < n ensures Upper(a[..n])[i] == Upper(b[..n])[i] {
          assert Upper(a)[i] == Upper(b)[i];
        }
      }
    }
  }

  /** A line that ends the input without a line feed is answered as the empty, invalid command. */
  lemma UnterminatedIsInvalid(raw: string, lines: seq<string>)
    requires !Terminated(raw)
    ensures Dispatch(raw, lines) == Reply(Continue, Some(InvalidCommandResponse("")))
  {
  }

  /**
   * `SHUTDOWN` (in any case, with anything after it) ends the session and
   * writes nothing; nothing else does so.
   */
  lemma ShutdownCommand(raw: string, lines: seq<string>)
    ensures Dispatch(raw, lines).outcome == EndShutdown
        <==> Terminated(raw) && StartsWith(Upper(raw), "SHUTDOWN")
  {
    if Terminated(raw) {
      NormalizedPrefix(raw, "GET");
      NormalizedPrefix(raw, "SHUTDOWN");
    }
  }

  /**
   * `QUIT` (in any case, with anything after it) ends the session and writes
   * nothing; nothing else does so.
   */
  lemma QuitCommand(raw: string, lines: seq<string>)
    ensures Dispatch(raw, lines).outcome == EndQuit
        <==> Terminated(raw) && StartsWith(Upper(raw), "QUIT")
  {
    if Terminated(raw) {
      NormalizedPrefix(raw, "GET");
      NormalizedPrefix(raw, "SHUTDOWN");
      NormalizedPrefix(raw, "QUIT");
    }
  }

  /**
   * Anything starting with `GET` is a `GET`, even `GETX 5`; it never ends the
   * session, and it writes nothing when the command holds no second token.
   */
  lemma GetCommand(raw: string, lines: seq<string>)
    requires Terminated(raw) && StartsWith(Upper(raw), "GET")
    ensures Dispatch(raw, lines).outcome == Continue
    ensures Dispatch(raw, lines).response == GetResponse(Normalize(raw), lines)
    ensures ' ' !in raw ==> Dispatch(raw, lines).response == None
  {
    NormalizedPrefix(raw, "GET");
    if ' ' !in raw {
      var cmd := Normalize(raw);
      assert ' ' !in cmd by {
        forall i | 0 <= i < |cmd| ensures cmd[i] != ' ' {
          assert raw[..|raw| - 1][i] == raw[i];
        }
      }
      SplitWithoutSeparator(cmd, ' ');
    }
  }

  /**
   * Any other line is answered with the invalid-command error echoing the
   * upper-cased command, and the session goes on.
   */
  lemma OtherCommand(raw: string, lines: seq<string>)
    requires Terminated(raw)
    requires !StartsWith(Upper(raw), "GET") && !StartsWith(Upper(raw), "SHUTDOWN") && !StartsWith(Upper(raw), "QUIT")
    ensures Dispatch(raw, lines) == Reply(Continue, Some(InvalidCommandResponse(Upper(raw[..|raw| - 1]))))
  {
    NormalizedPrefix(raw, "GET");
    NormalizedPrefix(raw, "SHUTDOWN");
    NormalizedPrefix(raw, "QUIT");
  }

  // ---------------------------------------------------------------------
  // A whole session
  // ---------------------------------------------------------------------

  /** The control message a session sends when a command ends it. */
  function ControlMessage(outcome: Outcome, id: u16): Message
    requires outcome != Continue
  {
    if outcome == EndShutdown then Shutdown else Quit(id)
  }

  /** The reply to each input line, taken on its own. */
  function Replies(inputs: seq<string>, lines: seq<string>): (replies: seq<Reply>)
    ensures |replies| == |inputs|
  {
    seq(|inputs|, i requires 0 <= i < |inputs| => Dispatch(inputs[i], lines))
  }

  /**
   * The session of client `id`, given the replies to the lines it sends:
   * replies are acted on in order until one ends the session; `sent` is
   * `None` while the session is still waiting for input.
   */
  function Serve(replies: seq<Reply>, id: u16): (t: Trace)
    ensures t.sent == None || t.sent == Some(Shutdown) || t.sent == Some(Quit(id))
    ensures |t.writes| <= |replies|
    decreases |replies|
  {
    if replies == [] then Trace([], None)
    else if replies[0].outcome != Continue then Trace([], Some(ControlMessage(replies[0].outcome, id)))
    else
      var rest := Serve(replies[1..], id);
      Trace(ToSeq(replies[0].response) + rest.writes, rest.sent)
  }

  /** Every response among `replies`, ignoring whether one of them ends the session. */
  function Responses(replies: seq<Reply>): seq<string>
    decreases |replies|
  {
    if replies == [] then [] else ToSeq(replies[0].response) + Responses(replies[1..])
  }

  /**
   * A session writes the responses to the commands before the first one that
   * ends it, and then sends exactly the message of that command (`Quit` with
   * its own id, or `Shutdown`); with no such command it sends nothing.
   */
  lemma {:induction false} ServeUpToFirstEnd(replies: seq<Reply>, id: u16, j: nat)
    requires j <= |replies|
    requires forall i :: 0 <= i < j ==> replies[i].outcome == Continue
    requires j < |replies| ==> replies[j].outcome != Continue
    ensures j < |replies| ==>
      Serve(replies, id) == Trace(Responses(replies[..j]), Some(ControlMessage(replies[j].outcome, id)))
    ensures j == |replies| ==> Serve(replies, id) == Trace(Responses(replies), None)
    decreases j
  {
    if j == 0 {
      assert replies[..0] == [];
    } else {
      ServeUpToFirstEnd(replies[1..], id, j - 1);
      assert replies[..j][1..] == replies[1..][..j - 1];
    }
  }

  /**
   * A session whose commands all answer and continue writes exactly those
   * answers, in order, and is still open afterwards.
   */
  lemma {:induction false} ServeAnswers(replies: seq<Reply>, id: u16, answers: seq<string>)
    requires |answers| == |replies|
    requires forall i :: 0 <= i < |replies| ==> replies[i] == Reply(Continue, Some(answers[i]))
    ensures Serve(replies, id) == Trace(answers, None)
    decreases |replies|
  {
    if replies != [] {
      ServeAnswers(replies[1..], id, answers[1..]);
      assert answers == [answers[0]] + answers[1..];
    }
  }

  /** The requests `GET 0`, `GET 1`, ... `GET count-1`, each ended by a line feed. */
  function GetRequests(count: nat): (r: seq<string>)
    requires count <= U16_RANGE
    ensures |r| == count
  {
    seq(count, i requires 0 <= i < count => "GET " + Decimal(i) + "\n")
  }

  /** Request `k` of `GetRequests` fetches line `k`. */
  lemma GetRequestAt(lines: seq<string>, k: nat)
    requires k < |lines| <= U16_RANGE
    ensures Dispatch(GetRequests(|lines|)[k], lines) == Reply(Continue, Some(OkResponse(lines[k])))
  {
    UpperFixesUpper("GET");
    GetByDecimal("GET", k as u16, lines);
    assert "GET" + " " == "GET ";
  }

  /**
   * Reading the whole store: `GET 0` through `GET N-1` return every line,
   * unmodified and in order, and the session stays open.
   */
  lemma ServeEveryLine(lines: seq<string>, id: u16)
    requires |lines| <= U16_RANGE
    ensures Serve(Replies(GetRequests(|lines|), lines), id)
         == Trace(seq(|lines|, i requires 0 <= i < |lines| => OkResponse(lines[i])), None)
  {
    var replies := Replies(GetRequests(|lines|), lines);
    var answers := seq(|lines|, i requires 0 <= i < |lines| => OkResponse(lines[i]));
    forall i | 0 <= i < |lines|
      ensures replies[i] == Reply(Continue, Some(answers[i]))
    {
      GetRequestAt(lines, i);
    }
    ServeAnswers(replies, id, answers);
  }

  /** Acting on reply `i` of a session whose earlier replies produced `writes`. */
  lemma ServeAdvance(replies: seq<Reply>, id: u16, i: nat, writes: seq<string>)
    requires i < |replies|
    requires Serve(replies, id).writes == writes + Serve(replies[i..], id).writes
    requires Serve(replies, id).sent == Serve(replies[i..], id).sent
    ensures replies[i].outcome == Continue ==>
      && Serve(replies, id).writes == (writes + ToSeq(replies[i].response)) + Serve(replies[i + 1..], id).writes
      && Serve(replies, id).sent == Serve(replies[i + 1..], id).sent
    ensures replies[i].outcome != Continue ==>
      Serve(replies, id) == Trace(writes, Some(ControlMessage(replies[i].outcome, id)))
  {
    var rest := replies[i..];
    assert rest[0] == replies[i] && rest[1..] == replies[i + 1..];
    if replies[i].outcome == Continue {
      var later := Serve(replies[i + 1..], id);
      assert (writes + ToSeq(replies[i].response)) + later.writes == writes + (ToSeq(replies[i].response) + later.writes);
    }
  }

  /** Dispatching the `i`th input line, seen as the `i`th reply of the session. */
  method Respond(inputs: seq<string>, i: nat, lines: seq<string>) returns (reply: Reply)
    requires i < |inputs|
    ensures reply == Replies(inputs, lines)[i]
  {
    reply := Dispatch(inputs[i], lines);
  }

  /**
   * The session loop: read a line, normalise it, dispatch it, write the
   * response, until `SHUTDOWN` or `QUIT`; the input runs out while the session
   * is still reading when no such command comes.
   */
  method HandleClient(inputs: seq<string>, lines: seq<string>, id: u16) returns (writes: seq<string>, sent: Option<Message>)
    ensures Trace(writes, sent) == Serve(Replies(inputs, lines), id)
  {
    ghost var replies := Replies(inputs, lines);
    writes, sent := [], None;
    var i := 0;
    while i < |inputs|
      invariant i <= |inputs|
      invariant Serve(replies, id).writes == writes + Serve(replies[i..], id).writes
      invariant Serve(replies, id).sent == Serve(replies[i..], id).sent
      invariant sent == None
    {
      var reply := Respond(inputs, i, lines);
      ServeAdvance(replies, id, i, writes);
      match reply.outcome
      case EndShutdown =>
        sent := Some(Shutdown);
        return;
      case EndQuit =>
        sent := Some(Quit(id));
        return;
      case Continue =>
        writes := writes + ToSeq(reply.response);
      i := i + 1;
    }
    assert replies[i..] == [];
  }

  // ---------------------------------------------------------------------
  // The documented exchanges, over the store "the", "quick brown", "fox", "jumps"
  // ---------------------------------------------------------------------

  const SAMPLE: seq<string> := ["the", "quick brown", "fox", "jumps"]

  lemma SampleGetFirst(raw: string)
    requires raw == "GET 0\n"
    ensures Dispatch(raw, SAMPLE) == Reply(Continue, Some("Ok\r\n" + "the" + "\r\n"))
  {
    UpperFixesUpper("GET");
    assert Decimal(0) == "0" by { assert DigitChar(0) == '0'; }
    assert raw == "GET" + " " + Decimal(0) + "\n";
    GetByDecimal("GET", 0, SAMPLE);
  }

  lemma SampleGetSecond(raw: string)
    requires raw == "get 1\n"
    ensures Dispatch(raw, SAMPLE) == Reply(Continue, Some("Ok\r\n" + "quick brown" + "\r\n"))
  {
    assert Upper("get") == "GET" by {
      assert UpperChar('g') == 'G' && UpperChar('e') == 'E' && UpperChar('t') == 'T';
    }
    assert Decimal(1) == "1" by { assert DigitChar(1) == '1'; }
    assert raw == "get" + " " + Decimal(1) + "\n";
    GetByDecimal("get", 1, SAMPLE);
  }

  lemma SampleGetOutOfRange(raw: string)
    requires raw == "GET 999\n"
    ensures Dispatch(raw, SAMPLE)
         == Reply(Continue, Some("Err - failed to retrieve line " + "999" + ". There are only " + "4" + " lines available.\r\n"))
  {
    UpperFixesUpper("GET");
    SampleDecimals();
    assert raw == "GET" + " " + Decimal(999) + "\n";
    GetByDecimal("GET", 999, SAMPLE);
  }

  lemma SampleDecimals()
    ensures Decimal(999) == "999" && Decimal(4) == "4"
  {
    assert DigitChar(9) == '9' && DigitChar(4) == '4';
    assert Decimal(9) == "9";
    assert Decimal(99) == Decimal(9) + "9";
    assert Decimal(999) == Decimal(99) + "9";
  }

  lemma SampleGetNotANumber(raw: string)
    requires raw == "GET abc\n"
    ensures Dispatch(raw, SAMPLE)
         == Reply(Continue, Some("Err - " + "invalid digit found in string" + ". Is " + "ABC" + " an unsigned integer under 65536?\r\n"))
  {
    UpperFixesUpper("GET");
    assert Upper("abc") == "ABC" by {
      assert UpperChar('a') == 'A' && UpperChar('b') == 'B' && UpperChar('c') == 'C';
    }
    assert ParseU16("ABC") == Failure(InvalidDigit) by {
      assert Unsigned("ABC") == "ABC";
      assert !IsDigit('A');
    }
    assert raw == "GET" + " " + "abc" + [] + "\n";
    UpperFixesUpper("GET");
    GetBadToken("GET", "abc", [], SAMPLE, InvalidDigit);
  }

  lemma SampleInvalidCommand(raw: string)
    requires raw == "FOO\n"
    ensures Dispatch(raw, SAMPLE)
         == Reply(Continue, Some("Err - " + "FOO" + " is an invalid command. " + "`GET nnnn | QUIT | SHUTDOWN`" + " are valid commands.\r\n"))
  {
    UpperFixesUpper(raw);
    assert raw[..3] == "FOO";
    assert raw[..|raw| - 1] == "FOO";
    assert !StartsWith(raw, "GET") && !StartsWith(raw, "SHUTDOWN") && !StartsWith(raw, "QUIT");
    OtherCommand(raw, SAMPLE);
    UpperFixesUpper("FOO");
  }
}
