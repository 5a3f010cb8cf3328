/** The chat-command matcher of `BotClient.onMessage` (src/client/BotClient.js). The tmi.js client
    is not modelled: what the handler sends with `client.say` is returned as a list of replies. */
module BotClient {
  import opened Text

  /** One `client.say(channel, text)`. */
  datatype Reply = Reply(channel: string, text: string)

  const PingCommand: string := "!ping"
  const Insult: string := "bot ist doof"

  function PingReply(username: string): string {
    "@" + username + ", Pong!"
  }

  function InsultReply(username: string): string {
    "@" + username + ", Das ist nicht nett 😔!"
  }

  /** The lower-cased message is exactly `!ping`. */
  predicate IsPing(message: string) {
    ToLower(message) == PingCommand
  }

  /** The lower-cased message contains `bot ist doof`. */
  predicate IsInsult(message: string) {
    Contains(ToLower(message), Insult)
  }

  /** The two answers differ right after the name: `P` against `D`. */
  lemma RepliesDiffer(username: string)
    ensures PingReply(username) != InsultReply(username)
  {
    assert PingReply(username)[|username| + 3] == 'P';
    assert InsultReply(username)[|username| + 3] == 'D';
  }

  /** No message is both the ping command and an insult: `!ping` is shorter than the phrase. */
  lemma PingIsNoInsult(message: string)
    ensures IsPing(message) ==> !IsInsult(message)
  {
    if IsPing(message) {
      NotContainsLonger(ToLower(message), Insult);
    }
  }

  /** `onMessage(channel, tags, message, self)`: the replies the message triggers, in order. */
  function OnMessage(channel: string, username: string, message: string, self: bool): (replies: seq<Reply>)
    ensures self ==> replies == []
    ensures |replies| <= 1
    ensures forall k :: 0 <= k < |replies| ==> replies[k].channel == channel
    ensures (!self && IsPing(message)) <==> Reply(channel, PingReply(username)) in replies
    ensures (!self && IsInsult(message)) <==> Reply(channel, InsultReply(username)) in replies
    ensures replies == [] <==> self || (!IsPing(message) && !IsInsult(message))
  {
    PingIsNoInsult(message);
    RepliesDiffer(username);
    if self then []
    else
      (if IsPing(message) then [Reply(channel, PingReply(username))] else [])
      + (if IsInsult(message) then [Reply(channel, InsultReply(username))] else [])
  }

  /** The handler only ever looks at the lower-cased message: lower-casing it first changes no reply. */
  lemma MessageCaseInsensitive(channel: string, username: string, message: string)
    ensures OnMessage(channel, username, message, false) == OnMessage(channel, username, ToLower(message), false)
  {
    ToLowerIdempotent(message);
  }

  /** The ping command is recognised in any letter case: every message that lower-cases to `!ping`,
      such as `!PiNG`, gets exactly the pong reply. */
  lemma PingAnyCase(channel: string, username: string, message: string)
    ensures ToLower(message) == PingCommand ==> OnMessage(channel, username, message, false) == [Reply(channel, PingReply(username))]
    ensures OnMessage(channel, username, "!PiNG", false) == [Reply(channel, PingReply(username))]
  {
    assert ToLower("!PiNG") == "!ping";
    if ToLower(message) == PingCommand {
      PingIsNoInsult(message);
    }
  }

  /** The phrase is recognised anywhere in the message and in any letter case (`Bot IST doof`, say);
      the message is then never the ping command. */
  lemma InsultAnywhere(channel: string, username: string, before: string, phrase: string, after: string)
    ensures ToLower(phrase) == Insult ==>
      OnMessage(channel, username, before + phrase + after, false) == [Reply(channel, InsultReply(username))]
    ensures OnMessage(channel, username, before + "Bot IST doof" + after, false) == [Reply(channel, InsultReply(username))]
  {
    assert ToLower("Bot IST doof") == Insult;
    InsultInside(before, "Bot IST doof", after);
    InsultInside(before, phrase, after);
  }

  lemma InsultInside(before: string, phrase: string, after: string)
    ensures ToLower(phrase) == Insult ==> IsInsult(before + phrase + after) && !IsPing(before + phrase + after)
  {
    if ToLower(phrase) == Insult {
      var m := before + phrase + after;
      assert ToLower(m) == ToLower(before) + ToLower(phrase) + ToLower(after);
      ContainsMiddle(ToLower(before), Insult, ToLower(after));
      assert |ToLower(m)| >= 12;
    }
  }
}
