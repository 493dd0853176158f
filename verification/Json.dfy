/** JSON documents as the report validators see them. */
module Json {
  datatype Json = Obj(fields: map<string, Json>) | Arr(items: seq<Json>) | Str(text: string) | Scalar(value: int)
}
