/** JSON values as a request or an upstream reply holds them, after parsing. */
module Json {
  import opened Options

  datatype Value =
    | Null
    | Boolean(flag: bool)
    | Natural(n: nat)
    | Number(r: real)
    | Text(text: string)
    | Array(items: seq<Value>)
    | Object(members: map<string, Value>)
  {
    function Get(key: string): Option<Value> {
      if Object? && key in members then Some(members[key]) else None
    }
  }
}
