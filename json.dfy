/** The JSON values exchanged between the pages and the server, as far as the pages
    read them: strings, numbers and flat objects of string values. */
module Json {
  import opened Wrappers
  import opened Dicts
  import opened Text

  datatype Value = Str(s: string) | Num(n: int) | Obj(fields: Dict<string>)

  /** An object: its fields in order. */
  type Object = Dict<Value>

  /** `obj.name`, `None` standing for `undefined`. */
  function Get(obj: Object, name: string): (r: Option<Value>)
    ensures r.Some? <==> name in Keys(obj)
    ensures r.Some? ==> r.value == AsMap(obj)[name]
  {
    if obj == [] then None
    else
      var p := obj[..|obj| - 1];
      var x := obj[|obj| - 1];
      assert obj == p + [x];
      KeysSnoc(p, x);
      AsMapSnoc(p, x);
      if x.0 == name then Some(x.1) else Get(p, name)
  }

  /** JavaScript truthiness: `undefined`, `""` and `0` are false, objects are true. */
  predicate Truthy(v: Option<Value>) {
    match v
    case None => false
    case Some(Str(s)) => s != []
    case Some(Num(n)) => n != 0
    case Some(Obj(_)) => true
  }

  /** JavaScript string conversion, as in `'Error: ' + value` or a template literal. */
  function Show(v: Option<Value>): string {
    match v
    case None => "undefined"
    case Some(Str(s)) => s
    case Some(Num(n)) => IntToString(n)
    case Some(Obj(_)) => "[object Object]"
  }
}
