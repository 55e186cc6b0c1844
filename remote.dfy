/** What a request to the backend gives a store: the response body's data,
    or a failure (a rejected request, whatever its status). */
module Remote {
  datatype Reply<T> = Succeeded(data: T) | Failed
}
