/** The records the popular-posts refresh reads and writes: analytics rows
    as they arrive, and the posts stored for the site to list. */
module Records {
  /** One analytics record: `dimensions.clientRequestPath` and `sum.requests`. */
  datatype Group = Group(path: string, requests: int)

  /** One entry of the popular-posts list. */
  datatype Post = Post(path: string, views: int, title: string)
}
