/** The environment of the client: HTTP transport, JSON decoding and the clock.

    The network is a scripted oracle: a sequence of replies, one consumed by
    every GET. A reply is either a transport failure or a status code with
    the outcome of decoding its body. When the script is exhausted, every
    further GET fails as if the server were unreachable. A ghost trace
    records every request and every sleep, in order. */
module Network {
  import opened Models

  /** What decoding the JSON body of a reply yields. */
  datatype Body = Decoded(response: Response) | Undecodable

  /** The answer to one GET. */
  datatype Reply = TransportError | HttpReply(statusCode: int, body: Body)

  /** An observable action of the client. */
  datatype Event = Requested(url: string) | Slept(seconds: nat)

  /** The reply the next GET receives: an exhausted script behaves as an unreachable server. */
  function NextReply(script: seq<Reply>): Reply {
    if script == [] then TransportError else script[0]
  }

  /** The script left once `n` requests have been answered. */
  function Drop(script: seq<Reply>, n: nat): (rest: seq<Reply>)
    ensures |rest| == if n <= |script| then |script| - n else 0
  {
    if n <= |script| then script[n..] else []
  }

  /** Answering one more request after n leaves the script n + 1 leaves. */
  lemma DropStep(script: seq<Reply>, n: nat)
    ensures Drop(Drop(script, n), 1) == Drop(script, n + 1)
  {
  }

  /** Answering n more requests after one leaves the script n + 1 leaves. */
  lemma DropDrop(script: seq<Reply>, n: nat)
    ensures Drop(Drop(script, 1), n) == Drop(script, n + 1)
  {
  }

  /** The reply the `j`-th GET (from 0) receives. */
  function ReplyAt(script: seq<Reply>, j: nat): (r: Reply)
    ensures r == NextReply(Drop(script, j))
  {
    if j < |script| then script[j] else TransportError
  }

  /** The HTTP client and the clock of the program, over a script of replies. */
  class Oracle {
    var script: seq<Reply>
    ghost var events: seq<Event>

    constructor (script: seq<Reply>)
      ensures this.script == script && events == []
    {
      this.script := script;
      events := [];
    }

    /** One GET of `url`: consumes exactly one reply; no retry. */
    method Get(url: string) returns (reply: Reply)
      modifies this
      ensures reply == NextReply(old(script))
      ensures script == Drop(old(script), 1)
      ensures events == old(events) + [Requested(url)]
    {
      if script == [] {
        reply := TransportError;
      } else {
        reply := script[0];
        script := script[1..];
      }
      events := events + [Requested(url)];
    }

    /** time.Sleep: recorded, not waited for. */
    method Sleep(seconds: nat)
      modifies this
      ensures script == old(script)
      ensures events == old(events) + [Slept(seconds)]
    {
      events := events + [Slept(seconds)];
    }
  }
}
