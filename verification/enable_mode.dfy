/** The privileged-mode ("enable") step of the discovery session
    (`_check_enable_password`). The terminal is an oracle: a `Device` answers each
    read of an `expect` call with a password prompt, the expected prompt, or a
    failure (timeout, unexpected output, closed connection). Regular-expression
    search is an uninterpreted predicate passed in by the caller. */
module EnableMode {
  import opened Common
  import opened CredentialCursor

  /** The command that asks the device for privileged mode. */
  const EnableCommand: string := "enable"

  /** The only action pattern bound while entering privileged mode. */
  const PasswordPattern: string := "[Pp]assword:"

  /** A regular-expression search: the pattern and the flags it is compiled with. */
  datatype Search = Search(pattern: string, dotAll: bool, ignoreCase: bool)

  /** The arguments of one `hardware_expect` call: the command sent, the string
      awaited, the action patterns (each bound to the action of `actionRole`) and
      whether loop detection is on. */
  datatype ExpectCall = ExpectCall(command: string, expected: string, actionPatterns: seq<string>,
                                   actionRole: Role, loopDetection: bool)

  function EnableCall(prompt: string): ExpectCall
  {
    ExpectCall(EnableCommand, prompt, [PasswordPattern], EnablePassword, false)
  }

  /** What the device shows on the next read of an expect call. */
  datatype Reply = PasswordPrompt | ExpectedFound | Failed

  /** The device's behaviour: the next reply, given the call and the lines the
      action has answered so far within it. */
  type Device = (ExpectCall, seq<string>) -> Reply

  /** How an expect call ended, with the credentials as the actions left them and
      the lines they sent. */
  datatype ExpectOutcome =
    | Reached(creds: Credentials, sent: seq<string>)
    | Broke(creds: Credentials, sent: seq<string>)

  lemma PrefixOfCons<T>(x: T, s: seq<T>, k: nat)
    requires k <= |s|
    ensures ([x] + s)[..k + 1] == [x] + s[..k]
  {
  }

  /** `hardware_expect` with one prompt action bound to cursor `c`, after the
      action has already answered `answered` within this call: on each password
      prompt the action answers with the next candidate; an exhausted action
      raises, which ends the call as a failure. Every prompt either consumes a
      candidate or ends the call, so the dialogue is finite. */
  function RunExpect(call: ExpectCall, device: Device, c: Cursor, creds: Credentials,
                     sessionType: string, answered: seq<string>): (o: ExpectOutcome)
    ensures |o.sent| <= |Remaining(c)|
    ensures o.sent == Remaining(c)[..|o.sent|]
    ensures |o.sent| == 0 ==> o.creds == creds
    ensures |o.sent| > 0 ==> Get(o.creds, c.role) == Some(o.sent[|o.sent| - 1])
    ensures SameOutside(o.creds, creds, c.role)
    decreases |Remaining(c)|
  {
    match device(call, answered)
    case ExpectedFound => Reached(creds, [])
    case Failed => Broke(creds, [])
    case PasswordPrompt =>
      match Invoke(c, creds, sessionType)
      case Raised(_) => Broke(creds, [])
      case Fired(line, creds', rest) =>
        var o := RunExpect(call, device, rest, creds', sessionType, answered + [line]);
        PrefixOfCons(line, Remaining(rest), |o.sent|);
        o.(sent := [line] + o.sent)
  }

  lemma AppendAfterLine<T>(answered: seq<T>, line: T, sent: seq<T>)
    ensures answered + ([line] + sent) == (answered + [line]) + sent
  {
  }

  /** Every line was sent in answer to a password prompt: the device showed the
      prompt after each prefix of `sent`. */
  ghost predicate PromptedBefore(call: ExpectCall, device: Device, answered: seq<string>, sent: seq<string>)
  {
    forall j :: 0 <= j < |sent| ==> device(call, answered + sent[..j]) == PasswordPrompt
  }

  /** Prompting before every line of `[line] + sent` is a prompt before `line`
      followed by prompting before every line of `sent` one line later. */
  lemma PromptedBeforeCons(call: ExpectCall, device: Device, answered: seq<string>, line: string, sent: seq<string>)
    requires device(call, answered) == PasswordPrompt
    requires PromptedBefore(call, device, answered + [line], sent)
    ensures PromptedBefore(call, device, answered, [line] + sent)
  {
    forall j | 0 <= j < |[line] + sent|
      ensures device(call, answered + ([line] + sent)[..j]) == PasswordPrompt
    {
      if j == 0 {
        assert answered + ([line] + sent)[..0] == answered;
      } else {
        assert answered + ([line] + sent)[..j] == (answered + [line]) + sent[..j - 1];
      }
    }
  }

  /** The first line, if any, answered a prompt shown before anything was sent. */
  lemma PromptedBeforeFirst(call: ExpectCall, device: Device, answered: seq<string>, sent: seq<string>)
    requires PromptedBefore(call, device, answered, sent) && |sent| > 0
    ensures device(call, answered) == PasswordPrompt
  {
    assert answered + sent[..0] == answered;
  }

  /** The outcome of an expect call follows the device: each line answers a
      password prompt, the call succeeds exactly when the device then shows the
      expected prompt, and a call that ends on a password prompt has used up the
      action. So a failure after any number of answers ends the call as broken. */
  lemma {:induction false} RunExpectFollowsDevice(call: ExpectCall, device: Device, c: Cursor, creds: Credentials,
                                                  sessionType: string, answered: seq<string>)
    ensures var o := RunExpect(call, device, c, creds, sessionType, answered);
            && PromptedBefore(call, device, answered, o.sent)
            && (o.Reached? <==> device(call, answered + o.sent) == ExpectedFound)
            && (device(call, answered + o.sent) == PasswordPrompt ==> o.sent == Remaining(c))
    decreases |Remaining(c)|
  {
    var o := RunExpect(call, device, c, creds, sessionType, answered);
    if device(call, answered) != PasswordPrompt || Remaining(c) == [] {
      assert o.sent == [];
      assert answered + o.sent == answered;
    } else {
      RunExpectOnPrompt(call, device, c, creds, sessionType, answered);
      var r := Invoke(c, creds, sessionType);
      var next := answered + [r.line];
      RunExpectFollowsDevice(call, device, r.rest, r.creds, sessionType, next);
      var o' := RunExpect(call, device, r.rest, r.creds, sessionType, next);
      assert o.sent == [r.line] + o'.sent;
      AppendAfterLine(answered, r.line, o'.sent);
      PromptedBeforeCons(call, device, answered, r.line, o'.sent);
    }
  }

  lemma AppendToNothing<T>(s: seq<T>)
    ensures [] + s == s
  {
  }

  /** `RunExpectFollowsDevice` for a call in which nothing has been answered yet. */
  lemma FreshDialogueFollowsDevice(call: ExpectCall, device: Device, c: Cursor, creds: Credentials, sessionType: string)
    ensures var o := RunExpect(call, device, c, creds, sessionType, []);
            && PromptedBefore(call, device, [], o.sent)
            && (device(call, []) == Failed ==> o.sent == [])
            && (o.Reached? <==> device(call, o.sent) == ExpectedFound)
            && (device(call, o.sent) == PasswordPrompt ==> o.sent == Remaining(c))
  {
    var o := RunExpect(call, device, c, creds, sessionType, []);
    RunExpectFollowsDevice(call, device, c, creds, sessionType, []);
    AppendToNothing(o.sent);
    if o.sent != [] {
      PromptedBeforeFirst(call, device, [], o.sent);
    }
  }

  /** The result of the enable step: the credentials returned, the expect calls
      made, the lines the password action sent, and whether the failure warning
      was logged. */
  datatype EnableResult = EnableResult(creds: Credentials, expects: seq<ExpectCall>, lines: seq<string>, warned: bool)

  /** The guarded `enable` dialogue: `enable` is sent once, awaiting the enable
      prompt, and the password action answers each password prompt with the next
      candidate enable password. A call that does not reach the prompt, for any
      reason and after any number of answers, clears the enable password and is
      only logged. */
  function EnterEnableMode(prompt: string, candidates: seq<Candidate>, valid: Credentials, device: Device,
                           sessionType: string): (r: EnableResult)
    ensures r.expects == [ExpectCall("enable", prompt, ["[Pp]assword:"], EnablePassword, false)]
    ensures device(EnableCall(prompt), []) == Failed ==> r.warned && r.lines == []
    ensures PromptedBefore(EnableCall(prompt), device, [], r.lines)
    ensures r.warned <==> device(EnableCall(prompt), r.lines) != ExpectedFound
    ensures device(EnableCall(prompt), r.lines) == PasswordPrompt ==> r.lines == Eligible(candidates, EnablePassword)
    ensures |r.lines| <= |Eligible(candidates, EnablePassword)|
    ensures r.lines == Eligible(candidates, EnablePassword)[..|r.lines|]
    ensures r.creds.user == valid.user && r.creds.password == valid.password
    ensures r.warned ==> r.creds.enablePassword == None
    ensures !r.warned && |r.lines| == 0 ==> r.creds == valid
    ensures !r.warned && |r.lines| > 0 ==> r.creds.enablePassword == Some(r.lines[|r.lines| - 1])
  {
    var call := EnableCall(prompt);
    var cursor := Prepare(candidates, EnablePassword);
    var o := RunExpect(call, device, cursor, valid, sessionType, []);
    FreshDialogueFollowsDevice(call, device, cursor, valid, sessionType);
    var creds := if o.Reached? then o.creds else o.creds.(enablePassword := None);
    EnableResult(creds, [call], o.sent, o.Broke?)
  }

  /** `_check_enable_password`: with no enable prompt, or when the last output
      already shows it, nothing happens; otherwise the `enable` dialogue runs. */
  function CheckEnablePassword(enablePrompt: Option<string>, candidates: seq<Candidate>, valid: Credentials,
                               output: string, matches: (Search, string) -> bool, device: Device,
                               sessionType: string): (r: EnableResult)
    ensures !Truthy(enablePrompt) ==> r == EnableResult(valid, [], [], false)
    ensures Truthy(enablePrompt) && matches(Search(enablePrompt.value, true, false), output) ==>
              r == EnableResult(valid, [], [], false)
    ensures Truthy(enablePrompt) && !matches(Search(enablePrompt.value, true, false), output) ==>
              && r.expects == [ExpectCall("enable", enablePrompt.value, ["[Pp]assword:"], EnablePassword, false)]
              && PromptedBefore(EnableCall(enablePrompt.value), device, [], r.lines)
              && (r.warned <==> device(EnableCall(enablePrompt.value), r.lines) != ExpectedFound)
              && (device(EnableCall(enablePrompt.value), r.lines) == PasswordPrompt ==>
                    r.lines == Eligible(candidates, EnablePassword))
    ensures Truthy(enablePrompt) && !matches(Search(enablePrompt.value, true, false), output)
              && device(EnableCall(enablePrompt.value), []) == Failed ==>
              r.warned && r.lines == []
    ensures |r.lines| <= |Eligible(candidates, EnablePassword)|
    ensures r.lines == Eligible(candidates, EnablePassword)[..|r.lines|]
    ensures r.creds.user == valid.user && r.creds.password == valid.password
    ensures r.warned ==> r.creds.enablePassword == None
    ensures !r.warned && |r.lines| == 0 ==> r.creds == valid
    ensures !r.warned && |r.lines| > 0 ==> r.creds.enablePassword == Some(r.lines[|r.lines| - 1])
  {
    if !Truthy(enablePrompt) then EnableResult(valid, [], [], false)
    else if matches(Search(enablePrompt.value, true, false), output) then EnableResult(valid, [], [], false)
    else EnterEnableMode(enablePrompt.value, candidates, valid, device, sessionType)
  }

  /** A device that re-shows the password prompt forever drains the cursor: every
      remaining candidate is sent, in order, and the call ends in failure. */
  lemma {:induction false} AlwaysPromptingDrainsCursor(call: ExpectCall, device: Device, c: Cursor, creds: Credentials,
                                                       sessionType: string, answered: seq<string>)
    requires forall s :: device(call, s) == PasswordPrompt
    ensures RunExpect(call, device, c, creds, sessionType, answered).Broke?
    ensures RunExpect(call, device, c, creds, sessionType, answered).sent == Remaining(c)
    decreases |Remaining(c)|
  {
    var r := Invoke(c, creds, sessionType);
    if r.Fired? {
      AlwaysPromptingDrainsCursor(call, device, r.rest, r.creds, sessionType, answered + [r.line]);
    }
  }

  /** When every enable-password candidate is rejected, all of them are tried in
      candidate order, the enable password ends up unset, the login credentials
      are kept, and the failure is only logged. */
  lemma EnableAllRejected(enablePrompt: Option<string>, candidates: seq<Candidate>, valid: Credentials,
                          output: string, matches: (Search, string) -> bool, device: Device, sessionType: string)
    requires Truthy(enablePrompt) && !matches(Search(enablePrompt.value, true, false), output)
    requires forall s :: device(EnableCall(enablePrompt.value), s) == PasswordPrompt
    ensures var r := CheckEnablePassword(enablePrompt, candidates, valid, output, matches, device, sessionType);
            && r.warned
            && r.lines == Eligible(candidates, EnablePassword)
            && r.creds == Credentials(valid.user, valid.password, None)
  {
    AlwaysPromptingDrainsCursor(EnableCall(enablePrompt.value), device, Prepare(candidates, EnablePassword), valid, sessionType, []);
  }

  /** A device that accepts exactly `secret`: it reaches the prompt right after
      `secret` is sent and asks for the password again otherwise. */
  ghost predicate AcceptsOnly(device: Device, call: ExpectCall, secret: string)
  {
    forall s {:trigger device(call, s)} :: device(call, s) == if |s| > 0 && s[|s| - 1] == secret then ExpectedFound else PasswordPrompt
  }

  /** One round of the dialogue: on a password prompt the action fires and the
      call continues with the advanced cursor. */
  lemma RunExpectOnPrompt(call: ExpectCall, device: Device, c: Cursor, creds: Credentials,
                          sessionType: string, answered: seq<string>)
    requires device(call, answered) == PasswordPrompt
    requires Remaining(c) != []
    ensures var r := Invoke(c, creds, sessionType);
            var o := RunExpect(call, device, r.rest, r.creds, sessionType, answered + [r.line]);
            RunExpect(call, device, c, creds, sessionType, answered) == o.(sent := [r.line] + o.sent)
  {
  }

  lemma FirstOccurrenceShifts<T>(x: T, rest: seq<T>, v: T, i: nat)
    requires 0 < i <= |rest| && ([x] + rest)[i] == v && v !in ([x] + rest)[..i]
    ensures x != v && rest[i - 1] == v && v !in rest[..i - 1]
  {
    assert ([x] + rest)[..i] == [x] + rest[..i - 1];
  }

  /** The dialogue ends as soon as the device accepts the line just sent. */
  lemma AcceptedOnFirstAnswer(call: ExpectCall, device: Device, c: Cursor, creds: Credentials,
                              sessionType: string, answered: seq<string>)
    requires Remaining(c) != []
    requires device(call, answered) == PasswordPrompt
    requires device(call, answered + [Remaining(c)[0]]) == ExpectedFound
    ensures RunExpect(call, device, c, creds, sessionType, answered).Reached?
    ensures RunExpect(call, device, c, creds, sessionType, answered).sent == Remaining(c)[..1]
  {
    RunExpectOnPrompt(call, device, c, creds, sessionType, answered);
  }

  lemma {:induction false} AcceptingDeviceStopsAtSecret(call: ExpectCall, device: Device, c: Cursor, creds: Credentials,
                                                        sessionType: string, answered: seq<string>, secret: string, i: nat)
    requires AcceptsOnly(device, call, secret)
    requires |answered| == 0 || answered[|answered| - 1] != secret
    requires i < |Remaining(c)| && Remaining(c)[i] == secret && secret !in Remaining(c)[..i]
    ensures RunExpect(call, device, c, creds, sessionType, answered).Reached?
    ensures RunExpect(call, device, c, creds, sessionType, answered).sent == Remaining(c)[..i + 1]
    decreases |Remaining(c)|
  {
    assert device(call, answered) == PasswordPrompt;
    var next := answered + [Remaining(c)[0]];
    if i == 0 {
      assert device(call, next) == ExpectedFound;
      AcceptedOnFirstAnswer(call, device, c, creds, sessionType, answered);
    } else {
      RunExpectOnPrompt(call, device, c, creds, sessionType, answered);
      var r := Invoke(c, creds, sessionType);
      FirstOccurrenceShifts(r.line, Remaining(r.rest), secret, i);
      AcceptingDeviceStopsAtSecret(call, device, r.rest, r.creds, sessionType, next, secret, i - 1);
      PrefixOfCons(r.line, Remaining(r.rest), i);
    }
  }

  /** When the device accepts exactly one enable password, candidates are tried in
      order up to its first occurrence, and that password is returned. */
  lemma EnableFindsPassword(enablePrompt: Option<string>, candidates: seq<Candidate>, valid: Credentials,
                            output: string, matches: (Search, string) -> bool, device: Device, sessionType: string,
                            secret: string, i: nat)
    requires Truthy(enablePrompt) && !matches(Search(enablePrompt.value, true, false), output)
    requires AcceptsOnly(device, EnableCall(enablePrompt.value), secret)
    requires i < |Eligible(candidates, EnablePassword)| && Eligible(candidates, EnablePassword)[i] == secret
    requires secret !in Eligible(candidates, EnablePassword)[..i]
    ensures var r := CheckEnablePassword(enablePrompt, candidates, valid, output, matches, device, sessionType);
            && !r.warned
            && r.lines == Eligible(candidates, EnablePassword)[..i + 1]
            && r.creds == Credentials(valid.user, valid.password, Some(secret))
  {
    AcceptingDeviceStopsAtSecret(EnableCall(enablePrompt.value), device, Prepare(candidates, EnablePassword),
                                 valid, sessionType, [], secret, i);
  }

  /** A worked example: the second candidate carries the enable password, the
      device asks for it once and accepts it. */
  lemma EnableScenario()
    ensures var candidates := [Candidate(Some("admin"), Some("wrong"), None),
                               Candidate(Some("admin"), Some("right"), Some("secret"))];
            var valid := Credentials(Some("admin"), Some("right"), None);
            var device: Device := (call: ExpectCall, s: seq<string>) =>
              if |s| > 0 && s[|s| - 1] == "secret" then ExpectedFound else PasswordPrompt;
            var r := CheckEnablePassword(Some("#"), candidates, valid, "switch>", (q: Search, t: string) => false,
                                         device, "SSH");
            r.creds == Credentials(Some("admin"), Some("right"), Some("secret")) && r.lines == ["secret"] && !r.warned
  {
    var candidates := [Candidate(Some("admin"), Some("wrong"), None),
                       Candidate(Some("admin"), Some("right"), Some("secret"))];
    var valid := Credentials(Some("admin"), Some("right"), None);
    var device: Device := (call: ExpectCall, s: seq<string>) =>
      if |s| > 0 && s[|s| - 1] == "secret" then ExpectedFound else PasswordPrompt;
    assert candidates[1..][1..] == [];
    assert Eligible(candidates, EnablePassword) == ["secret"];
    EnableFindsPassword(Some("#"), candidates, valid, "switch>", (q: Search, t: string) => false, device, "SSH", "secret", 0);
  }

  /** A worked example of a late failure: the device asks for the enable
      password once, gets a wrong one and then times out. The wrong password is
      not kept, and the failure is only logged. */
  lemma EnableLateTimeout()
    ensures var candidates := [Candidate(Some("admin"), Some("right"), Some("wrong"))];
            var valid := Credentials(Some("admin"), Some("right"), None);
            var device: Device := (call: ExpectCall, s: seq<string>) => if |s| == 0 then PasswordPrompt else Failed;
            var r := CheckEnablePassword(Some("#"), candidates, valid, "switch>", (q: Search, t: string) => false,
                                         device, "SSH");
            r.warned && r.lines == ["wrong"] && r.creds == Credentials(Some("admin"), Some("right"), None)
  {
    var candidates := [Candidate(Some("admin"), Some("right"), Some("wrong"))];
    assert candidates[1..] == [];
    assert Eligible(candidates, EnablePassword) == ["wrong"];
  }
}
