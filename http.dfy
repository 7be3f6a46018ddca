/** What a route handler sends back: an HTTP status and the `message` of its JSON body. */
module Http {

  datatype Response = Response(status: int, message: string)
}
