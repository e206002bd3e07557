/**
 * The membership verifier of `is_user_verified`: the registered channels are
 * checked one after the other, and the first one the user has not joined,
 * or whose membership the bot cannot read, ends the check.
 */
module Verifier {

  /** The `status` of a Telegram chat member. */
  datatype MemberStatus = Creator | Administrator | Member | Restricted | Left | Kicked

  /**
   * The outcome of `bot.get_chat_member(channel, user)`: a status, or an
   * exception (the bot is not an administrator of the channel, the channel
   * does not exist, the network failed).
   */
  datatype Lookup = Status(status: MemberStatus) | LookupFailed

  /** `member.status in ['member', 'administrator', 'creator']`. */
  predicate Joined(s: MemberStatus) {
    s == Member || s == Administrator || s == Creator
  }

  predicate Passes(l: Lookup) {
    l.Status? && Joined(l.status)
  }

  /** The four ways `is_user_verified` can return. */
  datatype Verdict =
    | NoChannels                  // `(True, "")`: nothing to join
    | AllJoined                   // `(True, "✅ Verified!")`
    | NotJoined(channel: string)  // `(False, "Please join ... first!")`
    | BotNotAdmin(channel: string) // `(False, "❌ Bot is not admin in ...")`
  {
    predicate Passed() {
      NoChannels? || AllJoined?
    }
  }

  /** The pair `is_user_verified` returns for a verdict. */
  function Reply(v: Verdict): (r: (bool, string))
    ensures r.0 == v.Passed()
    ensures r.1 == "" <==> v.NoChannels?
  {
    match v
    case NoChannels => (true, "")
    case AllJoined => (true, "✅ Verified!")
    case NotJoined(c) => (false, "Please join " + c + " first!")
    case BotNotAdmin(c) => (false, "❌ Bot is not admin in " + c + ". Please add bot as admin!")
  }

  /** The verdict of checking `channels` in order for `user`. */
  function Check(channels: seq<string>, user: int, lookup: (string, int) -> Lookup): (v: Verdict)
    ensures v.NoChannels? <==> channels == []
    ensures (v.NotJoined? || v.BotNotAdmin?) ==> v.channel in channels
  {
    if channels == [] then NoChannels else Scan(channels, user, lookup)
  }

  /** The loop of `is_user_verified`, as recursion over the remaining channels. */
  function Scan(channels: seq<string>, user: int, lookup: (string, int) -> Lookup): (v: Verdict)
    ensures !v.NoChannels?
    ensures (v.NotJoined? || v.BotNotAdmin?) ==> v.channel in channels
    ensures v.BotNotAdmin? ==> lookup(v.channel, user).LookupFailed?
    ensures v.NotJoined? ==> lookup(v.channel, user).Status? && !Joined(lookup(v.channel, user).status)
    decreases |channels|
  {
    if channels == [] then AllJoined
    else match lookup(channels[0], user)
      case LookupFailed => BotNotAdmin(channels[0])
      case Status(s) => if Joined(s) then Scan(channels[1..], user, lookup) else NotJoined(channels[0])
  }

  /** How many lookups the loop makes before it returns. */
  function Probes(channels: seq<string>, user: int, lookup: (string, int) -> Lookup): (n: nat)
    ensures n <= |channels|
    decreases |channels|
  {
    if channels == [] then 0
    else if Passes(lookup(channels[0], user)) then 1 + Probes(channels[1..], user, lookup)
    else 1
  }

  /** The channel at `k` is the first one the user fails. */
  ghost predicate FirstFailure(channels: seq<string>, user: int, lookup: (string, int) -> Lookup, k: nat) {
    && k < |channels|
    && !Passes(lookup(channels[k], user))
    && forall i :: 0 <= i < k ==> Passes(lookup(channels[i], user))
  }

  /** Verified exactly when every registered channel passes. */
  lemma {:induction false} PassedIffAllPass(channels: seq<string>, user: int, lookup: (string, int) -> Lookup)
    ensures Check(channels, user, lookup).Passed()
        <==> forall i :: 0 <= i < |channels| ==> Passes(lookup(channels[i], user))
  {
    if channels != [] {
      ScanPassedIffAllPass(channels, user, lookup);
    }
  }

  lemma {:induction false} ScanPassedIffAllPass(channels: seq<string>, user: int, lookup: (string, int) -> Lookup)
    ensures Scan(channels, user, lookup) == AllJoined
        <==> forall i :: 0 <= i < |channels| ==> Passes(lookup(channels[i], user))
    decreases |channels|
  {
    if channels != [] {
      ScanPassedIffAllPass(channels[1..], user, lookup);
      if Passes(lookup(channels[0], user)) {
        assert forall i :: 1 <= i < |channels| ==> channels[i] == channels[1..][i - 1];
      }
    }
  }

  /**
   * A refusal names the first failing channel: `NotJoined` when its status
   * is not a joined one, `BotNotAdmin` when its lookup raised; and the loop
   * made exactly the lookups up to and including that channel.
   */
  lemma {:induction false} FailureNamesFirst(channels: seq<string>, user: int, lookup: (string, int) -> Lookup)
    requires !Check(channels, user, lookup).Passed()
    ensures var v := Check(channels, user, lookup);
            var k := Probes(channels, user, lookup) - 1;
            && 0 <= k
            && FirstFailure(channels, user, lookup, k)
            && v.channel == channels[k]
            && (v.BotNotAdmin? <==> lookup(channels[k], user).LookupFailed?)
    decreases |channels|
  {
    assert channels != [];
    if Passes(lookup(channels[0], user)) {
      assert Scan(channels, user, lookup) == Scan(channels[1..], user, lookup);
      assert channels[1..] != [];
      FailureNamesFirst(channels[1..], user, lookup);
      var k := Probes(channels[1..], user, lookup) - 1;
      forall i | 0 <= i < k + 1 ensures Passes(lookup(channels[i], user)) {
        if i > 0 { assert channels[i] == channels[1..][i - 1]; }
      }
    }
  }

  /** When every channel passes, the loop looked up each of them once. */
  lemma {:induction false} SuccessProbesAll(channels: seq<string>, user: int, lookup: (string, int) -> Lookup)
    requires Check(channels, user, lookup).Passed()
    ensures Probes(channels, user, lookup) == |channels|
    decreases |channels|
  {
    if channels != [] {
      assert Scan(channels, user, lookup) == Scan(channels[1..], user, lookup);
      SuccessProbesAll(channels[1..], user, lookup);
    }
  }

  /**
   * No later channel is consulted: two membership oracles that agree on the
   * channels the loop looked up give the same verdict, whatever they say
   * about the rest.
   */
  lemma ShortCircuit(channels: seq<string>, user: int,
                      lookup: (string, int) -> Lookup, other: (string, int) -> Lookup)
    requires forall i :: 0 <= i < Probes(channels, user, lookup) ==>
               lookup(channels[i], user) == other(channels[i], user)
    ensures Check(channels, user, other) == Check(channels, user, lookup)
    ensures Probes(channels, user, other) == Probes(channels, user, lookup)
  {
    ScanShortCircuit(channels, user, lookup, other);
  }

  lemma {:induction false} ScanShortCircuit(channels: seq<string>, user: int,
                                            lookup: (string, int) -> Lookup, other: (string, int) -> Lookup)
    requires forall i :: 0 <= i < Probes(channels, user, lookup) ==>
               lookup(channels[i], user) == other(channels[i], user)
    ensures Scan(channels, user, other) == Scan(channels, user, lookup)
    ensures Probes(channels, user, other) == Probes(channels, user, lookup)
    decreases |channels|
  {
    if channels != [] {
      assert lookup(channels[0], user) == other(channels[0], user);
      if Passes(lookup(channels[0], user)) {
        forall i | 0 <= i < Probes(channels[1..], user, lookup)
          ensures lookup(channels[1..][i], user) == other(channels[1..][i], user)
        {
          assert channels[1..][i] == channels[i + 1];
        }
        ScanShortCircuit(channels[1..], user, lookup, other);
      }
    }
  }

  /**
   * `is_user_verified`: the fail-fast loop. Besides the verdict it returns
   * the channels it looked up, in order.
   */
  method IsUserVerified(channels: seq<string>, user: int, lookup: (string, int) -> Lookup)
    returns (verdict: Verdict, consulted: seq<string>)
    ensures verdict == Check(channels, user, lookup)
    ensures consulted == channels[..Probes(channels, user, lookup)]
  {
    consulted := [];
    if channels == [] {
      return NoChannels, consulted;
    }
    var i := 0;
    while i < |channels|
      invariant 0 <= i <= |channels|
      invariant consulted == channels[..i]
      invariant forall j :: 0 <= j < i ==> Passes(lookup(channels[j], user))
      invariant Scan(channels[i..], user, lookup) == Scan(channels, user, lookup)
      invariant Probes(channels, user, lookup) == i + Probes(channels[i..], user, lookup)
    {
      var channel := channels[i];
      var answer := lookup(channel, user);
      consulted := consulted + [channel];
      assert channels[i..][1..] == channels[i + 1..];
      match answer {
        case LookupFailed =>
          return BotNotAdmin(channel), consulted;
        case Status(s) =>
          if !Joined(s) {
            return NotJoined(channel), consulted;
          }
      }
      i := i + 1;
    }
    verdict := AllJoined;
  }
}
