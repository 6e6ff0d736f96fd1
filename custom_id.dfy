/**
 * The compound button `customId`: `customId.split(':')`, whose head is the
 * routing key and whose tail, rejoined with `':'`, is the argument passed to
 * the button controller.
 */
module CustomId {

  const Separator: char := ':'

  /**
   * `s.split(':')`: the maximal separator-free pieces of `s`; like
   * JavaScript's, the split of the empty string is one empty piece.
   */
  function Split(s: string): (parts: seq<string>)
    ensures |parts| >= 1
    ensures forall i :: 0 <= i < |parts| ==> Separator !in parts[i]
    ensures |parts| == 1 <==> Separator !in s
  {
    if s == [] then [[]]
    else
      var rest := Split(s[1..]);
      assert Separator in s <==> s[0] == Separator || Separator in s[1..] by {
        assert s == [s[0]] + s[1..];
      }
      if s[0] == Separator then [[]] + rest
      else [[s[0]] + rest[0]] + rest[1..]
  }

  /** `parts.join(':')`; the join of no pieces is the empty string. */
  function Join(parts: seq<string>): (s: string)
    ensures parts != [] ==> parts[0] <= s
    ensures |parts| > 1 ==> Separator in s
  {
    if parts == [] then []
    else if |parts| == 1 then parts[0]
    else parts[0] + [Separator] + Join(parts[1..])
  }

  /** Joining the pieces of a split gives back the original string. */
  lemma {:induction false} JoinSplit(s: string)
    ensures Join(Split(s)) == s
  {
    if s != [] {
      var rest := Split(s[1..]);
      JoinSplit(s[1..]);
      if s[0] != Separator && |rest| > 1 {
        var parts := Split(s);
        assert parts[1..] == rest[1..];
        assert Join(rest) == rest[0] + [Separator] + Join(rest[1..]);
      }
    }
  }

  /** A separator-free string splits into itself. */
  lemma {:induction false} SplitPlain(p: string)
    requires Separator !in p
    ensures Split(p) == [p]
  {
    if p != [] {
      assert Separator !in p[1..];
      SplitPlain(p[1..]);
      assert [p[0]] + p[1..] == p;
    }
  }

  /** A separator-free head followed by a separator splits off as the first piece. */
  lemma {:induction false} SplitHead(head: string, tail: string)
    requires Separator !in head
    ensures Split(head + [Separator] + tail) == [head] + Split(tail)
  {
    if head != [] {
      var s := head + [Separator] + tail;
      assert s[1..] == head[1..] + [Separator] + tail;
      assert Separator !in head[1..];
      SplitHead(head[1..], tail);
      var rest := Split(s[1..]);
      assert rest[0] == head[1..] && rest[1..] == Split(tail);
      assert [head[0]] + head[1..] == head && s[0] == head[0];
    } else {
      assert [] + [Separator] + tail == [Separator] + tail;
      assert ([Separator] + tail)[1..] == tail;
    }
  }

  /** Splitting a join of separator-free pieces gives back the pieces. */
  lemma {:induction false} SplitJoin(parts: seq<string>)
    requires |parts| >= 1
    requires forall i :: 0 <= i < |parts| ==> Separator !in parts[i]
    ensures Split(Join(parts)) == parts
  {
    if |parts| == 1 {
      SplitPlain(parts[0]);
    } else {
      SplitJoin(parts[1..]);
      SplitHead(parts[0], Join(parts[1..]));
      assert parts == [parts[0]] + parts[1..];
    }
  }

  /** The routing key and argument decoded from a button's `customId`. */
  datatype ButtonRoute = ButtonRoute(name: string, arg: string)

  /**
   * `const [name, ...customIds] = customId.split(':')` and
   * `customIds.join(':')`.
   */
  function Decode(customId: string): (r: ButtonRoute)
    ensures Separator !in r.name
    ensures Separator !in customId ==> r.name == customId && r.arg == []
    ensures Separator in customId ==> customId == r.name + [Separator] + r.arg
  {
    var parts := Split(customId);
    JoinSplit(customId);
    assert |parts| > 1 ==> Join(parts) == parts[0] + [Separator] + Join(parts[1..]);
    ButtonRoute(parts[0], Join(parts[1..]))
  }

  /**
   * Encoding a separator-free key with any argument (which may itself hold
   * separators) decodes back to that key and argument.
   */
  lemma DecodeEncoded(name: string, arg: string)
    requires Separator !in name
    ensures Decode(name + [Separator] + arg) == ButtonRoute(name, arg)
  {
    SplitHead(name, arg);
    JoinSplit(arg);
    assert ([name] + Split(arg))[1..] == Split(arg);
  }

  /** The worked case: `"key:a:b:c"` routes to `"key"` with argument `"a:b:c"`. */
  lemma DecodeExample()
    ensures Decode("key:a:b:c") == ButtonRoute("key", "a:b:c")
  {
    DecodeEncoded("key", "a:b:c");
    assert "key" + [Separator] + "a:b:c" == "key:a:b:c";
  }
}
