/** Chat messages: what they say, which never changes, and the cache marks that are set on them in place. */
module Messages {
  import opened Prelude

  datatype Role = System | Assistant | Tool

  datatype Block = TextBlock(text: string) | MediaBlock(payload: nat)

  datatype Content = Plain(text: string) | Blocks(blocks: seq<Block>)

  datatype Said =
    | FromUser(content: Content)
    | FromOther(role: Role, body: Option<Content>, toolCalls: nat)

  /** Where a cache mark can be: on the message, on one of its blocks, or on one of its tool calls. */
  datatype Slot = Own | OnBlock(index: nat) | OnToolCall(index: nat)

  class Message {
    const said: Said
    var marks: set<Slot>

    constructor (said: Said)
      ensures this.said == said && marks == {}
    {
      this.said, marks := said, {};
    }
  }

  function Saids(messages: seq<Message>): (r: seq<Said>)
    ensures |r| == |messages|
  {
    seq(|messages|, k requires 0 <= k < |messages| => messages[k].said)
  }

  ghost function Objects(messages: seq<Message>): set<Message> {
    set m | m in messages
  }

  lemma SaidsConcat(a: seq<Message>, b: seq<Message>)
    ensures Saids(a + b) == Saids(a) + Saids(b)
  {
  }
}
