// A property-list library with the assumed laws exists: a prefix code, and its inverse by choice.

module PlistWitness {
  import opened Wrappers
  import opened Rpc
  import opened Plist
  import opened WebInspectorModel
  import opened WebInspectorLaws

  // Each function puts the code of a value in front of what follows it.

  function Unary(n: nat, next: Bytes): Bytes {
    if n == 0 then [0] + next else [1] + Unary(n - 1, next)
  }

  function CodeBytes(b: Bytes, next: Bytes): Bytes {
    if b == [] then [0] + next else [1] + Unary(b[0], CodeBytes(b[1..], next))
  }

  function CodeText(t: string, next: Bytes): Bytes {
    if t == "" then [0] + next else [1] + Unary(t[0] as int, CodeText(t[1..], next))
  }

  function CodeFields(fs: seq<Field>, next: Bytes): Bytes
    decreases fs
  {
    if fs == [] then [0] + next
    else [1] + CodeText(fs[0].key, Code(fs[0].value, CodeFields(fs[1..], next)))
  }

  function Code(v: Value, next: Bytes): Bytes
    decreases v
  {
    match v
    case Dictionary(fields) => Unary(0, CodeFields(fields, next))
    case Data(bytes) => Unary(1, CodeBytes(bytes, next))
    case Text(text) => Unary(2, CodeText(text, next))
    case Integer(number) =>
      var n: int := number;
      if n >= 0 then Unary(3, Unary(n, next)) else Unary(4, Unary(-n, next))
    case Other(image) => Unary(5, CodeBytes(image, next))
  }

  lemma Cancel(x: Byte, a: Bytes, y: Byte, b: Bytes)
    requires [x] + a == [y] + b
    ensures x == y && a == b
  {
    assert ([x] + a)[0] == x && ([y] + b)[0] == y;
    assert ([x] + a)[1..] == a && ([y] + b)[1..] == b;
  }

  lemma {:induction false} UniqueUnary(m: nat, a: Bytes, n: nat, b: Bytes)
    requires Unary(m, a) == Unary(n, b)
    ensures m == n && a == b
  {
    var a', b' := if m == 0 then a else Unary(m - 1, a), if n == 0 then b else Unary(n - 1, b);
    Cancel(if m == 0 then 0 else 1, a', if n == 0 then 0 else 1, b');
    if m > 0 {
      UniqueUnary(m - 1, a, n - 1, b);
    }
  }

  lemma {:induction false} UniqueBytes(s: Bytes, a: Bytes, t: Bytes, b: Bytes)
    requires CodeBytes(s, a) == CodeBytes(t, b)
    ensures s == t && a == b
  {
    assert s == [] ==> CodeBytes(s, a)[0] == 0;
    assert t == [] ==> CodeBytes(t, b)[0] == 0;
    if s == [] {
      Cancel(0, a, 0, b);
    } else {
      var a', b' := CodeBytes(s[1..], a), CodeBytes(t[1..], b);
      Cancel(1, Unary(s[0], a'), 1, Unary(t[0], b'));
      UniqueUnary(s[0], a', t[0], b');
      UniqueBytes(s[1..], a, t[1..], b);
      assert s == [s[0]] + s[1..] && t == [t[0]] + t[1..];
    }
  }

  lemma {:induction false} UniqueText(s: string, a: Bytes, t: string, b: Bytes)
    requires CodeText(s, a) == CodeText(t, b)
    ensures s == t && a == b
  {
    assert s == [] ==> CodeText(s, a)[0] == 0;
    assert t == [] ==> CodeText(t, b)[0] == 0;
    if s == [] {
      Cancel(0, a, 0, b);
    } else {
      var a', b' := CodeText(s[1..], a), CodeText(t[1..], b);
      Cancel(1, Unary(s[0] as int, a'), 1, Unary(t[0] as int, b'));
      UniqueUnary(s[0] as int, a', t[0] as int, b');
      UniqueText(s[1..], a, t[1..], b);
      assert s == [s[0]] + s[1..] && t == [t[0]] + t[1..];
    }
  }

  lemma {:induction false} UniqueFields(s: seq<Field>, a: Bytes, t: seq<Field>, b: Bytes)
    requires CodeFields(s, a) == CodeFields(t, b)
    ensures s == t && a == b
    decreases s
  {
    assert s == [] ==> CodeFields(s, a)[0] == 0;
    assert t == [] ==> CodeFields(t, b)[0] == 0;
    if s == [] {
      Cancel(0, a, 0, b);
    } else {
      var a', b' := CodeFields(s[1..], a), CodeFields(t[1..], b);
      var va, vb := Code(s[0].value, a'), Code(t[0].value, b');
      Cancel(1, CodeText(s[0].key, va), 1, CodeText(t[0].key, vb));
      UniqueText(s[0].key, va, t[0].key, vb);
      UniqueValue(s[0].value, a', t[0].value, b');
      UniqueFields(s[1..], a, t[1..], b);
      assert s == [s[0]] + s[1..] && t == [t[0]] + t[1..];
    }
  }

  function Kind(v: Value): nat {
    match v
    case Dictionary(_) => 0
    case Data(_) => 1
    case Text(_) => 2
    case Integer(n) => if n >= 0 then 3 else 4
    case Other(_) => 5
  }

  function Payload(v: Value, next: Bytes): Bytes {
    match v
    case Dictionary(fields) => CodeFields(fields, next)
    case Data(bytes) => CodeBytes(bytes, next)
    case Text(text) => CodeText(text, next)
    case Integer(number) => (var n: int := number; Unary(if n >= 0 then n else -n, next))
    case Other(image) => CodeBytes(image, next)
  }

  lemma {:induction false} UniqueValue(v: Value, a: Bytes, w: Value, b: Bytes)
    requires Code(v, a) == Code(w, b)
    ensures v == w && a == b
    decreases v
  {
    UniqueUnary(Kind(v), Payload(v, a), Kind(w), Payload(w, b));
    match v
    case Dictionary(fields) => UniqueFields(fields, a, w.fields, b);
    case Data(bytes) => UniqueBytes(bytes, a, w.bytes, b);
    case Text(text) => UniqueText(text, a, w.text, b);
    case Integer(number) =>
      var m: int, n: int := number, w.number;
      UniqueUnary(if m >= 0 then m else -m, a, if n >= 0 then n else -n, b);
    case Other(image) => UniqueBytes(image, a, w.image, b);
  }

  ghost function Decode(b: Bytes): Option<Value> {
    if exists v: Value :: Code(v, []) == b then
      var v: Value :| Code(v, []) == b;
      Some(v)
    else None
  }

  lemma {:induction false} UnarySize(n: nat, next: Bytes)
    ensures |Unary(n, next)| == n + 1 + |next|
  {
    if n > 0 {
      UnarySize(n - 1, next);
    }
  }

  lemma {:induction false} BytesSize(b: Bytes, next: Bytes)
    ensures |CodeBytes(b, next)| <= 257 * |b| + 1 + |next|
  {
    if b != [] {
      UnarySize(b[0], CodeBytes(b[1..], next));
      BytesSize(b[1..], next);
    }
  }

  lemma {:induction false} TextSize(t: string, next: Bytes)
    ensures |CodeText(t, next)| <= 0x11_0001 * |t| + 1 + |next|
  {
    if t != "" {
      UnarySize(t[0] as int, CodeText(t[1..], next));
      TextSize(t[1..], next);
    }
  }

  lemma WrapSize(key: string, chunk: Bytes)
    requires |key| <= 20 && |chunk| <= MAX_RPC_LEN
    ensures |Code(Wrap(key, chunk), [])| <= MAX_BODY_LENGTH
  {
    var fields := [Field(key, Data(chunk))];
    var end := CodeFields([], []);
    assert fields[1..] == [];
    var body := Unary(1, CodeBytes(chunk, end));
    BytesSize(chunk, end);
    UnarySize(1, CodeBytes(chunk, end));
    TextSize(key, body);
    assert CodeFields(fields, []) == [1] + CodeText(key, body);
    UnarySize(0, CodeFields(fields, []));
  }

  /** The laws assumed of the library are consistent: some library has them all. */
  lemma LawfulLibraryExists()
    ensures exists lib: Library :: Lawful(lib) && WrapsSmall(lib)
  {
    var lib := Library(b => Decode(b), v => Code(v, []));
    forall v: Value ensures lib.read(lib.write(v)) == Some(v) && lib.write(v) != [] {
      var w := Decode(Code(v, [])).value;
      UniqueValue(v, [], w, []);
    }
    forall chunk: Bytes | |chunk| <= MAX_RPC_LEN
      ensures |lib.write(Wrap(FINAL, chunk))| <= MAX_BODY_LENGTH && |lib.write(Wrap(PARTIAL, chunk))| <= MAX_BODY_LENGTH
    {
      WrapSize(FINAL, chunk);
      WrapSize(PARTIAL, chunk);
    }
    assert Lawful(lib) && WrapsSmall(lib);
  }
}
