/**
 * Slack Block Kit messages as the bot builds them: a dictionary whose `"blocks"` entry is a list
 * of header, text-section, field-section and divider blocks.
 */
module SlackBlocks {
  import opened Maybe

  /** One block. `Header` is a `plain_text` header with emoji; `Section` a `mrkdwn` text section;
      `Fields` a section of `mrkdwn` fields; `Divider` a divider line. */
  datatype Block =
    | Header(text: string)
    | Section(text: string)
    | Fields(fields: seq<string>)
    | Divider

  /** A message dictionary. `blocks` is `None` when the dictionary has no `"blocks"` key. The
      dictionary is shared by reference, so adding a greeting changes it in place. */
  class SlackMessage {
    var blocks: Option<seq<Block>>

    constructor (blocks: Option<seq<Block>>)
      ensures this.blocks == blocks
    {
      this.blocks := blocks;
    }
  }
}
