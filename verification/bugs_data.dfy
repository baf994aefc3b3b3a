/** The records exchanged with the remote API: a bug and the comments embedded in it. */
module BugsData {
  import opened Wrappers

  /** A JavaScript `Date`, kept opaque: the model never inspects or compares clock values. */
  datatype Date = Date(millis: int)

  /** One comment on a bug; `id` is absent until the server has stored it. */
  datatype Comment = Comment(id: Option<int>, reporter: string, description: string)

  /** A bug record. `id` is absent until persisted; `comments` may be absent altogether. */
  datatype Bug = Bug(
    id: Option<int>,
    title: string,
    description: string,
    priority: int,
    reporter: string,
    status: string,
    updatedAt: Date,
    createdAt: Date,
    comments: Option<seq<Comment>>
  )
}
