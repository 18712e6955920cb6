/** src/core/utils.ts. */
module Utils {
  import opened Wrappers

  /** The first present value of a list, or None: the reference definition. */
  function FirstSome<T>(args: seq<Option<T>>): (r: Option<T>)
    decreases |args|
  {
    if |args| == 0 then None
    else if args[0].Some? then args[0]
    else FirstSome(args[1..])
  }

  /** firstValidValue(...args): scans the arguments in order and returns the first one that is neither null nor undefined. */
  method FirstValidValue<T>(args: seq<Option<T>>) returns (r: Option<T>)
    ensures r == FirstSome(args)
    ensures r.Some? ==> exists i :: 0 <= i < |args| && args[i] == r && forall j :: 0 <= j < i ==> args[j].None?
    ensures r.None? <==> forall i :: 0 <= i < |args| ==> args[i].None?
  {
    for i := 0 to |args|
      invariant forall j :: 0 <= j < i ==> args[j].None?
      invariant FirstSome(args) == FirstSome(args[i..])
    {
      assert args[i..][1..] == args[i + 1..];
      if args[i].Some? {
        return args[i];
      }
    }
    return None;
  }

  /** The result is the first present argument, and every argument before it is absent. */
  lemma {:induction false} FirstSomeIsFirst<T>(args: seq<Option<T>>)
    ensures FirstSome(args).Some? ==>
      exists i :: 0 <= i < |args| && args[i] == FirstSome(args) && forall j :: 0 <= j < i ==> args[j].None?
    ensures FirstSome(args).None? <==> forall i :: 0 <= i < |args| ==> args[i].None?
    decreases |args|
  {
    if |args| > 0 && args[0].None? {
      FirstSomeIsFirst(args[1..]);
      var rest := args[1..];
      if FirstSome(rest).Some? {
        var i :| 0 <= i < |rest| && rest[i] == FirstSome(rest) && forall j :: 0 <= j < i ==> rest[j].None?;
        assert args[i + 1] == FirstSome(args);
        assert forall j :: 0 <= j < i + 1 ==> args[j].None? by {
          forall j | 0 <= j < i + 1 ensures args[j].None? {
            if j > 0 { assert args[j] == rest[j - 1]; }
          }
        }
      } else {
        assert forall i :: 0 < i < |args| ==> args[i] == rest[i - 1];
      }
    }
  }

  /** A present value is returned whatever it is: firstValidValue tests strictly against null and undefined, so 0, '' and false are kept. */
  lemma FirstSomeKeepsAnyPresentValue<T>(v: T, rest: seq<Option<T>>)
    ensures FirstSome([Some(v)] + rest) == Some(v)
  {
  }
}
