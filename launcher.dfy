/** The add-on's entry point (default.py): the parser that turns the
    script's command-line arguments into a dictionary. `sys.argv` is a
    parameter. */
module Launcher {
  import opened Common

  /** A dictionary value: `True` for a bare flag, or the text after '='. */
  datatype ArgValue = Flag | Value(text: string)

  type Args = map<string, ArgValue>

  /** The position of the first `c` in `s`, if any. */
  function FirstIndex(s: string, c: char): (r: Option<nat>)
    ensures r.None? <==> c !in s
    ensures r.Some? ==> r.value < |s| && s[r.value] == c && c !in s[..r.value]
  {
    if s == [] then None
    else if s[0] == c then Some(0)
    else
      match FirstIndex(s[1..], c)
      case None => None
      case Some(i) =>
        assert s[..i + 1] == [s[0]] + s[1..][..i];
        Some(i + 1)
  }

  /** One argument as a dictionary entry: split at the first '=' only, or a
      flag when there is none. */
  function SplitArg(arg: string): (r: (string, ArgValue))
    ensures '=' !in arg ==> r == (arg, Flag)
    ensures '=' in arg ==> r.1.Value? && '=' !in r.0 && r.0 + "=" + r.1.text == arg
  {
    match FirstIndex(arg, '=')
    case None => (arg, Flag)
    case Some(i) =>
      assert arg == arg[..i] + "=" + arg[i + 1..];
      (arg[..i], Value(arg[i + 1..]))
  }

  function KeyOf(arg: string): string {
    SplitArg(arg).0
  }

  function ValueOf(arg: string): ArgValue {
    SplitArg(arg).1
  }

  /** The arguments entered one after another into `m`, each overwriting any
      earlier entry with its key. */
  function ArgsFrom(m: Args, args: seq<string>): Args
    decreases |args|
  {
    if args == [] then m else ArgsFrom(m[KeyOf(args[0]) := ValueOf(args[0])], args[1..])
  }

  /** Entering one more argument is one more dictionary assignment. */
  lemma {:induction false} ArgsFromAppend(m: Args, args: seq<string>, arg: string)
    ensures ArgsFrom(m, args + [arg]) == ArgsFrom(m, args)[KeyOf(arg) := ValueOf(arg)]
    decreases |args|
  {
    if args == [] {
      assert ArgsFrom(m, [arg]) == ArgsFrom(m[KeyOf(arg) := ValueOf(arg)], []);
    } else {
      assert (args + [arg])[1..] == args[1..] + [arg];
      ArgsFromAppend(m[KeyOf(args[0]) := ValueOf(args[0])], args[1..], arg);
    }
  }

  /** `args[i]` is the last argument with key `k`. */
  predicate LastWithKey(args: seq<string>, i: int, k: string) {
    0 <= i < |args| && KeyOf(args[i]) == k && forall j :: i < j < |args| ==> KeyOf(args[j]) != k
  }

  predicate HasKey(args: seq<string>, k: string) {
    exists i :: 0 <= i < |args| && KeyOf(args[i]) == k
  }

  /** An element whose key the last element lacks is not the last. */
  lemma NotLastKey<T, K>(key: T -> K, s: seq<T>, i: int, k: K)
    requires 0 <= i < |s| && key(s[i]) == k && key(s[|s| - 1]) != k
    ensures i < |s| - 1
  {
  }

  /** The keys of all arguments are those of all but the last, and the
      last one's. */
  lemma HasKeyInit(args: seq<string>, k: string)
    requires args != []
    ensures HasKey(args, k) <==> HasKey(args[..|args| - 1], k) || KeyOf(args[|args| - 1]) == k
  {
    var init := args[..|args| - 1];
    if HasKey(init, k) {
      var i :| 0 <= i < |init| && KeyOf(init[i]) == k;
      assert args[i] == init[i];
      assert HasKey(args, k);
    }
    if KeyOf(args[|args| - 1]) == k {
      assert HasKey(args, k);
    }
    if HasKey(args, k) && KeyOf(args[|args| - 1]) != k {
      var i :| 0 <= i < |args| && KeyOf(args[i]) == k;
      NotLastKey(KeyOf, args, i, k);
      assert init[i] == args[i];
      assert HasKey(init, k);
    }
  }

  /** The last argument with a key is the last argument, or the last with
      that key among those before it. */
  lemma LastWithKeyInit(args: seq<string>, i: int, k: string)
    requires LastWithKey(args, i, k)
    ensures i == |args| - 1 || (KeyOf(args[|args| - 1]) != k && LastWithKey(args[..|args| - 1], i, k))
  {
    var init := args[..|args| - 1];
    assert forall j :: 0 <= j < |init| ==> init[j] == args[j];
  }

  /** A key is in the result when it was in `m` or some argument has it; the
      last argument with the key decides its value, and a key no argument
      has keeps its value from `m`. */
  lemma {:induction false} ArgsFromLookup(m: Args, args: seq<string>, k: string)
    ensures k in ArgsFrom(m, args) <==> k in m || HasKey(args, k)
    ensures forall i :: LastWithKey(args, i, k) ==> ArgsFrom(m, args)[k] == ValueOf(args[i])
    ensures !HasKey(args, k) && k in m ==> ArgsFrom(m, args)[k] == m[k]
    decreases |args|
  {
    if args != [] {
      var init, last := args[..|args| - 1], args[|args| - 1];
      assert args == init + [last];
      ArgsFromAppend(m, init, last);
      ArgsFromLookup(m, init, k);
      HasKeyInit(args, k);
      forall i | LastWithKey(args, i, k)
        ensures ArgsFrom(m, args)[k] == ValueOf(args[i])
      {
        LastWithKeyInit(args, i, k);
      }
    }
  }

  /** `parse_args`: only the arguments after the program name are read. */
  function ParsedArgs(argv: seq<string>): (r: Args)
    ensures |argv| <= 1 ==> r == map[]
    ensures forall k :: k in r <==> |argv| > 1 && HasKey(argv[1..], k)
    ensures forall i :: 1 <= i < |argv| && LastWithKey(argv[1..], i - 1, KeyOf(argv[i])) ==>
              KeyOf(argv[i]) in r && r[KeyOf(argv[i])] == ValueOf(argv[i])
  {
    if |argv| > 1 then
      var r := ArgsFrom(map[], argv[1..]);
      forall k
        ensures k in r <==> HasKey(argv[1..], k)
        ensures forall i :: LastWithKey(argv[1..], i, k) ==> r[k] == ValueOf(argv[1..][i])
      {
        ArgsFromLookup(map[], argv[1..], k);
      }
      r
    else map[]
  }

  /** The loop of `parse_args`, building the dictionary one argument at a
      time. */
  method ParseArgs(argv: seq<string>) returns (args: Args)
    ensures args == ParsedArgs(argv)
  {
    args := map[];
    if |argv| > 1 {
      var i := 1;
      while i < |argv|
        invariant 1 <= i <= |argv|
        invariant args == ArgsFrom(map[], argv[1..i])
      {
        var arg := argv[i];
        assert argv[1..i + 1] == argv[1..i] + [arg];
        ArgsFromAppend(map[], argv[1..i], arg);
        if '=' in arg {
          var entry := SplitArg(arg);
          args := args[entry.0 := entry.1];
        } else {
          args := args[arg := Flag];
        }
        i := i + 1;
      }
      assert argv[1..i] == argv[1..];
    }
  }

  /** The first `c` after a prefix without one is found right after the
      prefix. */
  lemma {:induction false} FirstIndexAfter(prefix: string, c: char, rest: string)
    requires c !in prefix
    ensures FirstIndex(prefix + [c] + rest, c) == Some(|prefix|)
    decreases |prefix|
  {
    if prefix != [] {
      assert (prefix + [c] + rest)[1..] == prefix[1..] + [c] + rest;
      FirstIndexAfter(prefix[1..], c, rest);
    }
  }

  /** Any key without '=' and any value, '=' included, come back out of
      `key=value` unchanged: only the first '=' splits. */
  lemma SplitArgJoin(key: string, value: string)
    requires '=' !in key
    ensures SplitArg(key + "=" + value) == (key, Value(value))
  {
    FirstIndexAfter(key, '=', value);
    var arg := key + "=" + value;
    assert arg[..|key|] == key && arg[|key| + 1..] == value;
  }
}
