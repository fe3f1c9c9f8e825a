/** The LOGIN exchange. Models `loginServer` of internal/gateway/auth.go.
 */
module Login {

  /** The exchange so far; `calls` are the credentials handed to the
      authenticator. */
  datatype Exchange = Exchange(state: nat, username: string, calls: seq<(string, string)>)

  datatype Reply = Challenge(text: string) | Done | Failed

  const NEW := Exchange(0, [], [])

  /** One answer from the client; `check` is the authenticator. */
  function Answer(e: Exchange, response: string, check: (string, string) -> bool): (Exchange, Reply) {
    if e.state == 0 then
      if response != [] then (e.(state := 2, username := response), Challenge("Password:"))
      else (e.(state := 1), Challenge("Username:"))
    else if e.state == 1 then
      (e.(state := 2, username := response), Challenge("Password:"))
    else if e.state == 2 then
      (e.(state := 3, calls := e.calls + [(e.username, response)]),
       if check(e.username, response) then Done else Failed)
    else (e, Failed)
  }

  /** The exchange after a sequence of answers, and its replies. */
  function Converse(responses: seq<string>, check: (string, string) -> bool): (Exchange, seq<Reply>) {
    if responses == [] then (NEW, [])
    else
      var n := |responses| - 1;
      var (e, replies) := Converse(responses[..n], check);
      var (f, r) := Answer(e, responses[n], check);
      (f, replies + [r])
  }

  class LoginServer {
    var username: string
    var state: nat
    ghost var calls: seq<(string, string)>

    ghost function Value(): Exchange
      reads this
    {
      Exchange(state, username, calls)
    }

    constructor ()
      ensures Value() == NEW
    {
      username, state, calls := [], 0, [];
    }

    method Next(response: string, check: (string, string) -> bool) returns (r: Reply)
      modifies this
      ensures (Value(), r) == Answer(old(Value()), response, check)
    {
      if state == 0 {
        state := state + 1;
        if response != [] {
          username := response;
          state := state + 1;
          return Challenge("Password:");
        }
        return Challenge("Username:");
      } else if state == 1 {
        state := state + 1;
        username := response;
        return Challenge("Password:");
      } else if state == 2 {
        state := state + 1;
        calls := calls + [(username, response)];
        return if check(username, response) then Done else Failed;
      }
      return Failed;
    }
  }

  /** The credentials a client sends: the name is its first answer, or its second
      when the first is empty; the password is the one after. */
  function Credentials(responses: seq<string>): (r: seq<(string, string)>)
    ensures |r| <= 1
  {
    if |responses| >= 2 && responses[0] != [] then [(responses[0], responses[1])]
    else if |responses| >= 3 && responses[0] == [] then [(responses[1], responses[2])]
    else []
  }

  /** Where the client is, told from its answers alone. */
  lemma {:induction false} Progress(responses: seq<string>, check: (string, string) -> bool)
    ensures var (e, replies) := Converse(responses, check);
            && |replies| == |responses|
            && e.calls == Credentials(responses)
            && e.state == (if responses == [] then 0
                           else if Credentials(responses) != [] then 3
                           else if responses[0] == [] && |responses| == 1 then 1 else 2)
            && (e.state == 2 ==> e.username == responses[|responses| - 1])
  {
    if responses != [] {
      Progress(responses[..|responses| - 1], check);
    }
  }

  /** However long the client goes on, the authenticator is called at most once,
      with what it sent. The client is asked for what is missing, told the
      outcome of that call, and refused from then on. */
  lemma {:induction false} OneCallPerExchange(responses: seq<string>, check: (string, string) -> bool, i: nat)
    requires i < |responses|
    ensures var (e, replies) := Converse(responses, check);
            && e.calls == Credentials(responses) && |e.calls| <= 1
            && |replies| == |responses|
            && replies[i] == (if Credentials(responses[..i + 1]) == []
                              then Challenge(if i == 0 && responses[0] == [] then "Username:" else "Password:")
                              else if Credentials(responses[..i]) == []
                                      && check(Credentials(responses)[0].0, Credentials(responses)[0].1)
                              then Done else Failed)
  {
    hide Converse, Credentials;
    Progress(responses, check);
    var n := |responses| - 1;
    if i < n {
      OneCallPerExchange(responses[..n], check, i);
      assert responses[..n][..i] == responses[..i] && responses[..n][..i + 1] == responses[..i + 1];
      RepliesStay(responses, check, i);
    } else {
      assert responses[..i + 1] == responses;
      LastReply(responses, check);
    }
  }

  // A reply given stays given, and credentials sent stay sent.
  lemma RepliesStay(responses: seq<string>, check: (string, string) -> bool, i: nat)
    requires i < |responses| - 1
    ensures var n := |responses| - 1;
            && i < |Converse(responses, check).1| && i < |Converse(responses[..n], check).1|
            && Converse(responses, check).1[i] == Converse(responses[..n], check).1[i]
            && (Credentials(responses[..n]) != [] ==> Credentials(responses) == Credentials(responses[..n]))
            && (Credentials(responses[..i + 1]) != [] ==> Credentials(responses[..n]) != [])
  {
    hide Answer;
    Progress(responses[..|responses| - 1], check);
  }

  lemma LastReply(responses: seq<string>, check: (string, string) -> bool)
    requires responses != []
    ensures var n := |responses| - 1;
            && |Converse(responses, check).1| == |responses|
            && Converse(responses, check).1[n]
               == (if Credentials(responses) == []
                   then Challenge(if n == 0 && responses[0] == [] then "Username:" else "Password:")
                   else if Credentials(responses[..n]) == []
                           && check(Credentials(responses)[0].0, Credentials(responses)[0].1)
                   then Done else Failed)
  {
    Progress(responses[..|responses| - 1], check);
  }
}
