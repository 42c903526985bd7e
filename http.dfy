/**
 * The parts of the PSR-7 message objects the two components touch: a response is a status,
 * a header map and a body stream; the stream is a `php://memory` buffer with a position.
 * Responses are otherwise immutable, so only the stream is a class.
 */
module Http {

  /** The content of a buffer after writing `data` at offset `at`: overwrite, then extend. */
  function Overwrite(prior: string, at: nat, data: string): (r: string)
    requires at <= |prior|
    ensures |r| == if at + |data| <= |prior| then |prior| else at + |data|
    ensures r[..at] == prior[..at] && r[at..at + |data|] == data
    ensures at + |data| <= |prior| ==> r[at + |data|..] == prior[at + |data|..]
  {
    prior[..at] + data + (if at + |data| <= |prior| then prior[at + |data|..] else "")
  }

  /** Writing from offset 0 something at least as long as the buffer leaves exactly what was written. */
  lemma OverwriteFromStart(prior: string, data: string)
    requires |data| >= |prior|
    ensures Overwrite(prior, 0, data) == data
  {
    assert Overwrite(prior, 0, data)[0..|data|] == data;
  }

  /** A seekable, writable in-memory body stream. */
  class Stream {
    var content: string
    var pos: nat

    ghost predicate Valid()
      reads this
    {
      pos <= |content|
    }

    constructor ()
      ensures Valid() && content == "" && pos == 0
    {
      content, pos := "", 0;
    }

    /** `rewind()`. */
    method Rewind()
      requires Valid()
      modifies this
      ensures Valid() && content == old(content) && pos == 0
    {
      pos := 0;
    }

    /** `write(data)`: overwrites from the current position and moves past what was written. */
    method Write(data: string)
      requires Valid()
      modifies this
      ensures Valid()
      ensures content == Overwrite(old(content), old(pos), data)
      ensures pos == old(pos) + |data|
    {
      content := Overwrite(content, pos, data);
      pos := pos + |data|;
    }

    /** `(string) $stream`: rewinds, then reads to the end. */
    method ReadAll() returns (s: string)
      requires Valid()
      modifies this
      ensures Valid() && content == old(content)
      ensures s == content && pos == |content|
    {
      s := content;
      pos := |content|;
    }
  }

  datatype Response = Response(status: int, headers: map<string, string>, body: Stream)

  /** A response as the client receives it: its status, headers and body text. */
  datatype Reply = Reply(status: int, headers: map<string, string>, body: string)

  function Snapshot(r: Response): Reply
    reads r.body
  {
    Reply(r.status, r.headers, r.body.content)
  }

  /** `getHeaderLine(name)`: the header's value, or "" when the header is absent. */
  function HeaderLine(headers: map<string, string>, name: string): string
  {
    if name in headers then headers[name] else ""
  }
}
