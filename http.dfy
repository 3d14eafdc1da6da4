/** The responses the two views produce. */
module Http {
  import Json

  datatype Response =
    | JsonBody(data: Json.Dict)                 // JsonResponse(dataset)
    | FileBody(path: string, attachment: string) // HttpResponse over the opened file, with its Content-Disposition name
    | NotFound(message: string)                 // Http404
    | ServerError                               // an exception the view does not catch
}
