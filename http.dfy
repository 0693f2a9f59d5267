/**
 * The part of an Express response the handlers use: `res.status(code).json(body)`.
 * Every attempted write is logged in order. Express delivers the first one; a
 * later write finds the headers already sent and raises, which `Send` reports
 * by returning `false`.
 */
module Http {

  datatype Reply<B> = Reply(status: nat, body: B)

  /** The `{ err: '...' }` and `{ error: '...' }` bodies, by key and text. */
  datatype Message = Message(key: string, text: string)

  class Response<B> {
    var writes: seq<Reply<B>>

    constructor ()
      ensures writes == []
    {
      writes := [];
    }

    method Send(status: nat, body: B) returns (accepted: bool)
      modifies this
      ensures writes == old(writes) + [Reply(status, body)]
      ensures accepted <==> old(writes) == []
    {
      accepted := writes == [];
      writes := writes + [Reply(status, body)];
    }
  }
}
