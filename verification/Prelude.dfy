/** Result and error types shared by every module. */
module Prelude {

  /** Text is kept as its UTF-8 bytes. */
  type byte = b: int | 0 <= b < 256
  type Text = seq<byte>

  datatype Option<+T> = None | Some(value: T)

  /** The exceptions of the program, by the class that is raised. */
  datatype Error =
    | ProtocolError      // malformed or unsupported wire data
    | SchemaDriftError   // a source table no longer matches a view
    | SetupError         // setup or start-up refused
    | WalfluxError       // any other error the program raises on purpose
    | ConfigError        // invalid configuration
    | DatabaseError      // raised by the database driver
    | UnicodeError       // bytes that are not UTF-8
    | OverflowError      // a timestamp outside years 1..9999
    | RuntimeError       // any other exception of the language or its library

  datatype Result<+T> = Ok(value: T) | Err(error: Error) {
    predicate IsFailure() { Err? }

    function PropagateFailure<U>(): Result<U>
      requires Err?
    {
      Err(error)
    }

    function Extract(): T
      requires Ok?
    {
      value
    }
  }

  /** The parts of the text around each separator. */
  function Split(t: Text, separator: byte): (parts: seq<Text>)
    ensures parts != []
  {
    if t == [] then [[]]
    else
      var rest := Split(t[1..], separator);
      if t[0] == separator then [[]] + rest else [[t[0]] + rest[0]] + rest[1..]
  }

  lemma {:induction false} SplitWithout(t: Text, separator: byte)
    requires separator !in t
    ensures Split(t, separator) == [t]
  {
    if t != [] {
      SplitWithout(t[1..], separator);
      assert [t[0]] + t[1..] == t;
    }
  }

  lemma {:induction false} SplitAt(a: Text, b: Text, separator: byte)
    requires separator !in a && separator !in b
    ensures Split(a + [separator] + b, separator) == [a, b]
  {
    var t := a + [separator] + b;
    if a == [] {
      assert t[1..] == b;
      SplitWithout(b, separator);
    } else {
      assert t[1..] == a[1..] + [separator] + b;
      SplitAt(a[1..], b, separator);
      assert [a[0]] + a[1..] == a;
    }
  }

  lemma Associate<T>(a: seq<T>, b: seq<T>, c: seq<T>)
    ensures a + (b + c) == a + b + c
  {
  }

  function Flatten<T>(ss: seq<seq<T>>): seq<T> {
    if ss == [] then [] else ss[0] + Flatten(ss[1..])
  }

  lemma {:induction false} FlattenAppend<T>(a: seq<seq<T>>, b: seq<seq<T>>)
    ensures Flatten(a + b) == Flatten(a) + Flatten(b)
  {
    if a == [] {
      assert a + b == b;
    } else {
      assert (a + b)[0] == a[0] && (a + b)[1..] == a[1..] + b;
      FlattenAppend(a[1..], b);
      assert Flatten(a + b) == a[0] + (Flatten(a[1..]) + Flatten(b));
    }
  }

  function Joined(parts: seq<Text>, separator: byte): Text
    requires parts != []
  {
    if |parts| == 1 then parts[0] else parts[0] + [separator] + Joined(parts[1..], separator)
  }

  /** The parts joined again are the text. */
  lemma {:induction false} SplitJoins(t: Text, separator: byte)
    ensures Joined(Split(t, separator), separator) == t
  {
    if t != [] {
      var rest, all := Split(t[1..], separator), Split(t, separator);
      SplitJoins(t[1..], separator);
      assert [t[0]] + t[1..] == t;
      if t[0] == separator {
        assert all[1..] == rest && all[0] == [];
        assert [] + [separator] + t[1..] == t;
      } else if |rest| > 1 {
        assert all[0] == [t[0]] + rest[0] && all[1..] == rest[1..];
        assert [t[0]] + (rest[0] + [separator] + Joined(rest[1..], separator)) ==
               [t[0]] + rest[0] + [separator] + Joined(rest[1..], separator);
      } else {
        assert all == [[t[0]] + rest[0]];
      }
    }
  }

  /** The bytes of an ASCII text. */
  function Ascii(s: string): Text
    requires forall i :: 0 <= i < |s| ==> s[i] < 128 as char
  {
    seq(|s|, i requires 0 <= i < |s| => s[i] as int)
  }
}
