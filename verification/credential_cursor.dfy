/** The per-role credential generator of the discovery session
    (`prepare_credentials_action_map`), made explicit: instead of a closure over a
    lazy generator, a `Cursor` holds the candidate list, the role it serves and
    the position of the next candidate to look at. */
module CredentialCursor {
  import opened Common

  /** The credential field a prompt action fills in. */
  datatype Role = User | Password | EnablePassword

  /** One entry of the vendor's candidate list; any field may be unset or empty. */
  datatype Candidate = Candidate(user: Option<string>, password: Option<string>, enablePassword: Option<string>)

  /** The credentials found so far for one device (`valid_creds`). */
  datatype Credentials = Credentials(user: Option<string>, password: Option<string>, enablePassword: Option<string>)

  function Field(c: Candidate, role: Role): Option<string>
  {
    match role
    case User => c.user
    case Password => c.password
    case EnablePassword => c.enablePassword
  }

  function Get(creds: Credentials, role: Role): Option<string>
  {
    match role
    case User => creds.user
    case Password => creds.password
    case EnablePassword => creds.enablePassword
  }

  /** `a` and `b` agree on every field except the one of `role`. */
  predicate SameOutside(a: Credentials, b: Credentials, role: Role)
  {
    match role
    case User => a.password == b.password && a.enablePassword == b.enablePassword
    case Password => a.user == b.user && a.enablePassword == b.enablePassword
    case EnablePassword => a.user == b.user && a.password == b.password
  }

  /** `setattr(valid_creds, role, value)`: only the named field changes. */
  function Set(creds: Credentials, role: Role, value: Option<string>): (r: Credentials)
    ensures Get(r, role) == value
    ensures SameOutside(r, creds, role)
  {
    match role
    case User => creds.(user := value)
    case Password => creds.(password := value)
    case EnablePassword => creds.(enablePassword := value)
  }

  /** Reference definition: the values a fresh generator yields for `role`, in
      candidate order, skipping candidates whose field is unset or empty. */
  function Eligible(cs: seq<Candidate>, role: Role): seq<string>
  {
    if |cs| == 0 then []
    else
      var head := Field(cs[0], role);
      (if Truthy(head) then [head.value] else []) + Eligible(cs[1..], role)
  }

  /** Filtering distributes over concatenation: values keep their relative order
      and nothing is dropped or reordered across a split of the list. */
  lemma {:induction false} EligibleAppend(a: seq<Candidate>, b: seq<Candidate>, role: Role)
    ensures Eligible(a + b, role) == Eligible(a, role) + Eligible(b, role)
    decreases |a|
  {
    if |a| == 0 {
      assert a + b == b;
    } else {
      assert (a + b)[1..] == a[1..] + b;
      EligibleAppend(a[1..], b, role);
    }
  }

  /** Every yielded value is non-empty and is the role field of some candidate;
      a candidate whose field is unset or empty contributes nothing. */
  lemma {:induction false} EligibleMembers(cs: seq<Candidate>, role: Role)
    ensures |Eligible(cs, role)| <= |cs|
    ensures forall i :: 0 <= i < |Eligible(cs, role)| ==>
              Eligible(cs, role)[i] != "" &&
              exists j :: 0 <= j < |cs| && Field(cs[j], role) == Some(Eligible(cs, role)[i])
    ensures (forall j :: 0 <= j < |cs| ==> !Truthy(Field(cs[j], role))) ==> Eligible(cs, role) == []
    decreases |cs|
  {
    if |cs| > 0 {
      EligibleMembers(cs[1..], role);
      var e := Eligible(cs, role);
      var tail := Eligible(cs[1..], role);
      var head := Field(cs[0], role);
      forall i | 0 <= i < |e|
        ensures e[i] != "" && exists j :: 0 <= j < |cs| && Field(cs[j], role) == Some(e[i])
      {
        if Truthy(head) && i == 0 {
          assert Field(cs[0], role) == Some(e[0]);
        } else {
          var k := if Truthy(head) then i - 1 else i;
          assert e[i] == tail[k];
          var j :| 0 <= j < |cs[1..]| && Field(cs[1..][j], role) == Some(tail[k]);
          assert Field(cs[j + 1], role) == Some(e[i]);
        }
      }
    }
  }

  /** Explicit generator state: the next candidate to inspect is `candidates[pos]`. */
  datatype Cursor = Cursor(candidates: seq<Candidate>, role: Role, pos: nat)

  /** The values this cursor has still to yield. */
  function Remaining(c: Cursor): seq<string>
    decreases |c.candidates| - c.pos
  {
    if c.pos >= |c.candidates| then []
    else
      var field := Field(c.candidates[c.pos], c.role);
      (if Truthy(field) then [field.value] else []) + Remaining(c.(pos := c.pos + 1))
  }

  /** What a cursor has left is the filter applied to the unvisited suffix. */
  lemma {:induction false} RemainingIsEligibleSuffix(c: Cursor)
    requires c.pos <= |c.candidates|
    ensures Remaining(c) == Eligible(c.candidates[c.pos..], c.role)
    decreases |c.candidates| - c.pos
  {
    if c.pos < |c.candidates| {
      RemainingIsEligibleSuffix(c.(pos := c.pos + 1));
      assert c.candidates[c.pos..][1..] == c.candidates[c.pos + 1..];
    }
  }

  /** Each preparation starts a fresh generator at the first candidate. */
  function Prepare(cs: seq<Candidate>, role: Role): (c: Cursor)
    ensures c.candidates == cs && c.role == role
    ensures Remaining(c) == Eligible(cs, role)
  {
    var c := Cursor(cs, role, 0);
    RemainingIsEligibleSuffix(c);
    assert cs[0..] == cs;
    c
  }

  datatype Next = Yielded(value: string, rest: Cursor) | Exhausted

  /** `next(possible_values)`: the next eligible value and the advanced cursor,
      or `Exhausted` when no eligible value is left. */
  function Step(c: Cursor): (r: Next)
    ensures r.Exhausted? <==> Remaining(c) == []
    ensures r.Yielded? ==> Remaining(c) == [r.value] + Remaining(r.rest)
    ensures r.Yielded? ==> r.rest.candidates == c.candidates && r.rest.role == c.role
    decreases |c.candidates| - c.pos
  {
    if c.pos >= |c.candidates| then Exhausted
    else
      var field := Field(c.candidates[c.pos], c.role);
      var rest := c.(pos := c.pos + 1);
      if Truthy(field) then Yielded(field.value, rest) else Step(rest)
  }

  /** What one call of the prompt action does: either it records `line` in the
      credentials and sends it, or it raises with `message`. */
  datatype ActionResult = Fired(line: string, creds: Credentials, rest: Cursor) | Raised(message: string)

  function ExhaustedMessage(sessionType: string): string
  {
    "All given credentials aren't valid for the " + sessionType + " connection"
  }

  /** The callback `wrapped(session, logger)`: takes the next eligible value,
      writes it into the role's field and sends it as a line; on exhaustion it
      raises, changing neither the credentials nor the cursor. */
  function Invoke(c: Cursor, creds: Credentials, sessionType: string): (r: ActionResult)
    ensures r.Raised? <==> Remaining(c) == []
    ensures r.Raised? ==> r.message == ExhaustedMessage(sessionType)
    ensures r.Fired? ==> Remaining(c) == [r.line] + Remaining(r.rest)
    ensures r.Fired? ==> r.rest.candidates == c.candidates && r.rest.role == c.role
    ensures r.Fired? ==> Get(r.creds, c.role) == Some(r.line)
    ensures r.Fired? ==> SameOutside(r.creds, creds, c.role)
  {
    match Step(c)
    case Exhausted => Raised(ExhaustedMessage(sessionType))
    case Yielded(v, rest) => Fired(v, Set(creds, c.role, Some(v)), rest)
  }

  /** The generator state after `k` calls of the action; a call that raises
      leaves the state as it was. */
  function AfterCalls(c: Cursor, k: nat): (d: Cursor)
    ensures d.candidates == c.candidates && d.role == c.role
    ensures k <= |Remaining(c)| ==> Remaining(d) == Remaining(c)[k..]
    ensures k >= |Remaining(c)| ==> Remaining(d) == []
    decreases k
  {
    if k == 0 then c
    else
      match Step(c)
      case Exhausted => c
      case Yielded(_, rest) => AfterCalls(rest, k - 1)
  }

  /** One call's result: it sent `value` and stored it in the `role` field of
      credentials that otherwise still agree with `creds`. */
  predicate SentAndStored(r: ActionResult, creds: Credentials, role: Role, value: string)
  {
    && r.Fired?
    && r.line == value
    && Get(r.creds, role) == Some(value)
    && SameOutside(r.creds, creds, role)
  }

  /** For a freshly prepared action, call number k (counting from 0) sends the
      k-th eligible value of the candidate list and stores it in the role's field,
      leaving the other fields alone; once the eligible values are used up, every
      further call raises with the message naming the session type. */
  lemma FreshActionFollowsCandidateOrder(cs: seq<Candidate>, role: Role, creds: Credentials, sessionType: string, k: nat)
    ensures k < |Eligible(cs, role)| ==>
              SentAndStored(Invoke(AfterCalls(Prepare(cs, role), k), creds, sessionType), creds, role, Eligible(cs, role)[k])
    ensures k >= |Eligible(cs, role)| ==>
              Invoke(AfterCalls(Prepare(cs, role), k), creds, sessionType) == Raised(ExhaustedMessage(sessionType))
  {
    var d := AfterCalls(Prepare(cs, role), k);
    if k < |Eligible(cs, role)| {
      assert Remaining(d)[0] == Eligible(cs, role)[k];
    }
  }

  /** The exhaustion message names the session type verbatim. */
  lemma ExhaustedMessageNamesSession(sessionType: string)
    ensures var prefix := "All given credentials aren't valid for the ";
            ExhaustedMessage(sessionType)[|prefix|..|prefix| + |sessionType|] == sessionType
  {
  }
}
