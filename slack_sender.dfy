/**
 * `add_greeting_to_message` of `src/slack_sender.py`: the morning greeting put in front of the
 * blocks of a message, in place. Sending the message over the webhook is not modelled.
 */
module SlackSender {
  import opened Maybe
  import opened SlackBlocks

  /** The greeting section. */
  const Greeting := Section("おはよう☀️ 今日の論文はこちら!!")

  /** The block list after inserting the greeting at index 0. */
  function WithGreeting(blocks: seq<Block>): (greeted: seq<Block>)
    ensures |greeted| == |blocks| + 1
    ensures greeted[0] == Greeting
    ensures greeted[1..] == blocks
  {
    [Greeting] + blocks
  }

  /** Greeting is not idempotent: a second call adds a second greeting. */
  lemma GreetingTwiceAddsTwo(blocks: seq<Block>)
    ensures WithGreeting(WithGreeting(blocks)) != WithGreeting(blocks)
    ensures WithGreeting(WithGreeting(blocks))[..2] == [Greeting, Greeting]
  {
    assert |WithGreeting(WithGreeting(blocks))| != |WithGreeting(blocks)|;
  }

  /** Every block of the message keeps its place relative to the others, one position later. */
  lemma GreetingShiftsBlocks(blocks: seq<Block>, i: nat)
    requires i < |blocks|
    ensures WithGreeting(blocks)[i + 1] == blocks[i]
  {
  }

  /** `add_greeting_to_message`: a message with `"blocks"` gets the greeting in front of them;
      `None` (`null`) and a message without blocks are returned unchanged. The same object is
      returned. */
  method AddGreetingToMessage(message: SlackMessage?) returns (result: SlackMessage?)
    modifies message
    ensures result == message
    ensures message != null && old(message.blocks).Some? ==> message.blocks == Some(WithGreeting(old(message.blocks).value))
    ensures message != null && old(message.blocks).None? ==> message.blocks == None
  {
    if message != null && message.blocks.Some? {
      message.blocks := Some(WithGreeting(message.blocks.value));
    }
    return message;
  }
}
