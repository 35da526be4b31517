/** The traversal as the loops that advance the text position and overwrite the path buffer. */
module JsonTraveller {

  import opened JsonText
  import opened JsonToken
  import opened JsonTravel

  /** `base` is the position in the text, `jpath` the shared path buffer, `user` the data of the
      callback. */
  class Traveller<S> {
    const text: string
    const jpath: array<char>
    const callback: Callback<S>
    var base: nat
    var user: S
    ghost var seen: Shape

    ghost predicate Valid()
      reads this
    {
      base <= |text| && jpath.Length > 0
    }

    ghost function Now(): State<S>
      reads this, jpath
      requires Valid()
    {
      State(text[base..], jpath[..], user, seen)
    }

    constructor (text: string, jpath: array<char>, user: S, callback: Callback<S>)
      requires jpath.Length > 0
      ensures Valid() && Now() == State(text, jpath[..], user, NOTHING)
      ensures this.text == text && this.jpath == jpath && this.callback == callback
    {
      this.text, this.jpath, this.callback := text, jpath, callback;
      this.base, this.user, this.seen := 0, user, NOTHING;
      new;
      assert text[0..] == text;
    }

    /** Overwrite the path buffer behind its first `n` bytes. */
    method AppendName(n: nat, name: string) returns (m: nat)
      requires Valid() && n < jpath.Length
      modifies jpath
      ensures (jpath[..], m) == Append(old(jpath[..]), n, name)
    {
      if n + 1 + |name| < jpath.Length - 2 {
        WriteAt(n, "/" + name + [NUL]);
        m := n + 1 + |name|;
      } else if n + 2 <= jpath.Length - 1 {
        WriteAt(n, "/*" + [NUL]);
        m := n + 2;
      } else {
        m := n;
      }
    }

    method WriteAt(n: nat, bytes: string)
      requires n + |bytes| <= jpath.Length
      modifies jpath
      ensures jpath[..] == Overwrite(old(jpath[..]), n, bytes)
    {
      ghost var was := jpath[..];
      Store(jpath, n, bytes);
      assert jpath[..] == jpath[..n + |bytes|] + jpath[n + |bytes|..];
    }

    method Call(e: Event) returns (ret: int)
      requires Valid()
      modifies this`user
      ensures Outcome(Now(), ret) == Fire(old(Now()), e, callback)
    {
      var (next, result) := callback(user, e);
      user, ret := next, result;
    }

    /** `_TravelJsonLeafBuffer`: the members of an object, whose path has length `n`. */
    method VisitMembers(n: nat) returns (ret: int)
      requires Valid() && n < jpath.Length
      modifies this, jpath
      ensures Valid() && base >= old(base)
      ensures Outcome(Now(), ret) == Members(old(Now()), n, true, callback)
      decreases |text| - base, 0
    {
      hide NextToken, JsonTravel.Member;
      var first := true;
      while true
        invariant Valid() && base >= old(base)
        invariant Members(Now(), n, first, callback) == Members(old(Now()), n, true, callback)
        decreases |text| - base
      {
        var t, next := Tokenize(text, base);
        if t.End? {
          return END_OF_BUFFER;
        } else if t.Invalid? {
          return MALFORMED;
        } else if t.tag == RightBrace && first {
          base := next;
          return 0;
        } else if t.tag != Text {
          return ERROR_LEAF1;
        }
        base := next;
        var more;
        ret, more := VisitMember(n, t.from[..t.len], t.quotes);
        if !more {
          return;
        }
        first := false;
      }
    }

    /** One member after its name, and the mark after it; `more`: another member follows. */
    method VisitMember(n: nat, name: string, quotes: char) returns (ret: int, more: bool)
      requires Valid() && n < jpath.Length
      modifies this, jpath
      ensures Valid() && base >= old(base)
      ensures JsonTravel.Member(old(Now()), n, name, quotes, callback) ==
        if more then Members(Now(), n, false, callback) else Outcome(Now(), ret)
      decreases |text| - base, 0
    {
      hide NextToken, Members, MemberValue, Append, Fire;
      ret, more := 0, false;
      var t, next := Tokenize(text, base);
      if t.End? {
        ret := END_OF_BUFFER;
      } else if t.Invalid? {
        ret := MALFORMED;
      } else if t.tag == Colon {
        if quotes != '\"' {
          ret := ERROR_LEAF1;
        } else {
          base := next;
          ret, more := VisitValue(n, name);
        }
      } else if t.tag == Comma {
        ret := ERROR_LEAF1;
      } else if t.tag == RightBrace || t.tag == RightBracket {
        var m := AppendName(n, ".");
        base := next;
        ret := Call(LeafEvent(jpath[..m], [], t.from, t.len));
        if ret > 0 {
          ret := 0;
        }
      } else {
        ret := ERROR_LEAF2;
      }
    }

    method VisitValue(n: nat, name: string) returns (ret: int, more: bool)
      requires Valid() && n < jpath.Length
      modifies this, jpath
      ensures Valid() && base >= old(base)
      ensures MemberValue(old(Now()), n, name, callback) ==
        if more then Members(Now(), n, false, callback) else Outcome(Now(), ret)
      decreases |text| - base, 0
    {
      hide NextToken, Members, MemberObject, MemberArray, AfterMember, Append, Fire;
      ret, more := 0, false;
      var m := AppendName(n, name);
      seen := seen.(plain := seen.plain && '/' !in name);
      var t, next := Tokenize(text, base);
      if t.End? {
        ret := END_OF_BUFFER;
      } else if t.Invalid? {
        ret := MALFORMED;
      } else if t.tag == Text || t.tag == Special {
        if t.quotes == '\'' {
          ret := ERROR_LEAF3;
        } else {
          base := next;
          ret, more := VisitLeaf(n, LeafEvent(jpath[..m], name, t.from, t.len));
        }
      } else if t.tag == LeftBrace {
        base := next;
        ret, more := VisitObject(n, m, name);
      } else if t.tag == LeftBracket {
        base := next;
        ret, more := VisitArray(n, m);
      } else {
        ret := ERROR_LEAF3;
      }
    }

    /** A leaf is reported, and the mark after it read. */
    method VisitLeaf(n: nat, e: Event) returns (ret: int, more: bool)
      requires Valid() && n < jpath.Length
      modifies this`user, this`base
      ensures Valid() && base >= old(base)
      ensures var leaf := Fire(old(Now()), e, callback);
        (if leaf.ret != 0 then Halt(leaf) else AfterMember(leaf.st, n, callback)) ==
        if more then Members(Now(), n, false, callback) else Outcome(Now(), ret)
      decreases |text| - base, 0, 0
    {
      hide Members, AfterMember, Fire;
      more := false;
      ret := Call(e);
      if ret > 0 {
        ret := 0;
      } else if ret == 0 {
        ret, more := PassMember(n);
      }
    }

    method VisitObject(n: nat, m: nat, name: string) returns (ret: int, more: bool)
      requires Valid() && n < jpath.Length && m < jpath.Length
      modifies this, jpath
      ensures Valid() && base >= old(base)
      ensures MemberObject(old(Now()), n, m, name, callback) ==
        if more then Members(Now(), n, false, callback) else Outcome(Now(), ret)
      decreases |text| - base, 1
    {
      hide Members, AfterMember, Append, Fire;
      more := false;
      ret := Call(Branch(EnterBranch, jpath[..m], name));
      if ret != 0 {
        ret := if ret > 0 then 0 else ret;
        return;
      }
      ret := VisitMembers(m);
      if ret != 0 {
        return;
      }
      var k := AppendName(n, name);
      ret := Call(Branch(LeaveBranch, jpath[..k], name));
      if ret != 0 {
        ret := if ret > 0 then 0 else ret;
        return;
      }
      ret, more := PassMember(n);
    }

    method VisitArray(n: nat, m: nat) returns (ret: int, more: bool)
      requires Valid() && n < jpath.Length && m < jpath.Length
      modifies this, jpath
      ensures Valid() && base >= old(base)
      ensures MemberArray(old(Now()), n, m, callback) ==
        if more then Members(Now(), n, false, callback) else Outcome(Now(), ret)
      decreases |text| - base, 1
    {
      hide Members, Items, AfterMember, Append, Fire;
      more := false;
      ret := Call(Branch(EnterArray, jpath[..m], "["));
      if ret != 0 {
        ret := if ret > 0 then 0 else ret;
        return;
      }
      ret := VisitItems(m);
      if ret != 0 {
        return;
      }
      ret := Call(Branch(LeaveArray, jpath[..m], "["));
      if ret != 0 {
        ret := if ret > 0 then 0 else ret;
        return;
      }
      var k := AppendName(n, "[");
      ret, more := PassMember(n);
    }

    /** The mark after a member. */
    method PassMember(n: nat) returns (ret: int, more: bool)
      requires Valid() && n < jpath.Length
      modifies this`base
      ensures Valid() && base >= old(base)
      ensures AfterMember(old(Now()), n, callback) ==
        if more then Members(Now(), n, false, callback) else Outcome(Now(), ret)
      decreases |text| - base, 0
    {
      hide NextToken, Members;
      ret, more := 0, false;
      var t, next := Tokenize(text, base);
      if t.End? {
        ret := END_OF_BUFFER;
      } else if t.Invalid? {
        ret := MALFORMED;
      } else if t.tag == Comma {
        base := next;
        more := true;
      } else if t.tag == RightBrace {
        base := next;
      } else {
        ret := ERROR_LEAF4;
      }
    }

    /** `_TravelJsonArrayBuffer`: the items of an array, whose path has length `n`. */
    method VisitItems(n: nat) returns (ret: int)
      requires Valid() && n < jpath.Length
      modifies this, jpath
      ensures Valid() && base >= old(base)
      ensures Outcome(Now(), ret) == Items(old(Now()), n, true, 0, callback)
      decreases |text| - base, 0
    {
      hide Items;
      var first, m: nat, more := true, 0, true;
      ret := 0;
      while more
        invariant Valid() && base >= old(base) && m < jpath.Length
        invariant Items(old(Now()), n, true, 0, callback) ==
          if more then Items(Now(), n, first, m, callback) else Outcome(Now(), ret)
        decreases more, |text| - base
      {
        ret, m, more := VisitItem(n, first, m);
        first := false;
      }
    }

    /** One item and the mark after it; `m` is the path length left over. */
    method VisitItem(n: nat, first: bool, m: nat) returns (ret: int, k: nat, more: bool)
      requires Valid() && n < jpath.Length && m < jpath.Length
      modifies this, jpath
      ensures Valid() && base >= old(base) && k < jpath.Length && (more ==> base > old(base))
      ensures Items(old(Now()), n, first, m, callback) ==
        if more then Items(Now(), n, false, k, callback) else Outcome(Now(), ret)
      decreases |text| - base, 0, 0
    {
      hide NextToken, ItemObject, ItemArray, AfterItem, Append, Fire;
      ret, k, more := 0, m, false;
      var t, next := Tokenize(text, base);
      if t.End? {
        ret := END_OF_BUFFER;
      } else if t.Invalid? {
        ret := MALFORMED;
      } else if t.tag == Text || t.tag == Special {
        if t.quotes == '\'' {
          ret := ERROR_LEAF1;
        } else {
          k := AppendName(n, ".");
          base := next;
          ret := Call(LeafEvent(jpath[..k], [], t.from, t.len));
          if ret > 0 {
            ret := 0;
          } else if ret == 0 {
            ret, more := PassItem(n, k);
          }
        }
      } else if t.tag == LeftBrace {
        base := next;
        ret, more := VisitItemObject(n, m);
      } else if t.tag == LeftBracket {
        base := next;
        seen := Misplaced(seen, n, m);
        ret, k, more := VisitItemArray(n, m);
      } else if t.tag == RightBracket && first {
        base := next;
      } else {
        ret := ERROR_ARRAY1;
      }
    }

    method VisitItemObject(n: nat, m: nat) returns (ret: int, more: bool)
      requires Valid() && n < jpath.Length && m < jpath.Length
      modifies this, jpath
      ensures Valid() && base >= old(base)
      ensures ItemObject(old(Now()), n, m, callback) ==
        if more then Items(Now(), n, false, m, callback) else Outcome(Now(), ret)
      decreases |text| - base, 1
    {
      hide Members, Items, AfterItem, Fire;
      more := false;
      ret := Call(Branch(EnterBranch, jpath[..n], "["));
      if ret != 0 {
        ret := if ret > 0 then 0 else ret;
        return;
      }
      ret := VisitMembers(n);
      if ret != 0 {
        return;
      }
      ret := Call(Branch(LeaveBranch, jpath[..n], "["));
      if ret != 0 {
        ret := if ret > 0 then 0 else ret;
        return;
      }
      ret, more := PassItem(n, m);
    }

    method VisitItemArray(n: nat, m: nat) returns (ret: int, k: nat, more: bool)
      requires Valid() && n < jpath.Length && m < jpath.Length
      modifies this, jpath
      ensures Valid() && base >= old(base) && k < jpath.Length
      ensures ItemArray(old(Now()), n, m, callback) ==
        if more then Items(Now(), n, false, k, callback) else Outcome(Now(), ret)
      decreases |text| - base, 1
    {
      hide Items, AfterItem, Append, Fire;
      k, more := m, false;
      ret := Call(Branch(EnterArray, jpath[..m], "["));
      if ret != 0 {
        ret := if ret > 0 then 0 else ret;
        return;
      }
      ret := VisitItems(m);
      if ret != 0 {
        return;
      }
      ret := Call(Branch(LeaveArray, jpath[..m], "["));
      if ret != 0 {
        ret := if ret > 0 then 0 else ret;
        return;
      }
      k := AppendName(n, "[");
      ret, more := PassItem(n, k);
    }

    method PassItem(n: nat, m: nat) returns (ret: int, more: bool)
      requires Valid() && n < jpath.Length && m < jpath.Length
      modifies this`base
      ensures Valid() && base >= old(base)
      ensures AfterItem(old(Now()), n, m, callback) ==
        if more then Items(Now(), n, false, m, callback) else Outcome(Now(), ret)
      decreases |text| - base, 0
    {
      hide NextToken, Items;
      ret, more := 0, false;
      var t, next := Tokenize(text, base);
      if t.End? {
        ret := END_OF_BUFFER;
      } else if t.Invalid? {
        ret := MALFORMED;
      } else if t.tag == Comma {
        base := next;
        more := true;
      } else if t.tag == RightBracket {
        base := next;
      } else {
        ret := ERROR_ARRAY2;
      }
    }

    /** `_TravelJsonBuffer`. */
    method VisitDocument() returns (ret: int)
      requires Valid()
      modifies this, jpath
      ensures Valid()
      ensures Outcome(Now(), ret) == Document(old(Now()), callback)
    {
      hide Document;
      var more := true;
      ret := 0;
      while more
        invariant Valid()
        invariant Document(old(Now()), callback) ==
          if more then Document(Now(), callback) else Outcome(Now(), ret)
        decreases more, |text| - base
      {
        ret, more := VisitTop();
      }
    }

    /** One object or array of the document. */
    method VisitTop() returns (ret: int, more: bool)
      requires Valid()
      modifies this, jpath
      ensures Valid() && (more ==> base > old(base))
      ensures Document(old(Now()), callback) ==
        if more then Document(Now(), callback) else Outcome(Now(), ret)
    {
      hide NextToken, Members, Items, Fire;
      ret, more := 0, false;
      var t, next := Tokenize(text, base);
      if t.End? {
        return END_OF_TEXT, false;
      } else if t.Invalid? {
        return MALFORMED, false;
      } else if t.tag != LeftBrace && t.tag != LeftBracket {
        return ERROR_TOP, false;
      }
      base := next;
      var braces := t.tag == LeftBrace;
      var node := if braces then "{" else "[";
      ret := Call(Branch(if braces then EnterBranch else EnterArray, [], node));
      if ret != 0 {
        ret := if ret > 0 then 0 else ret;
        return;
      }
      if braces {
        ret := VisitMembers(0);
      } else {
        ret := VisitItems(0);
      }
      if ret != 0 {
        return;
      }
      ret := Call(Branch(if braces then LeaveBranch else LeaveArray, [], node));
      if ret != 0 {
        ret := if ret > 0 then 0 else ret;
        return;
      }
      more := true;
    }
  }

  /** `TravelJsonBuffer`. */
  method TravelBuffer<S>(text: string, jpath: array<char>, user: S, callback: Callback<S>) returns (data: S, ret: int)
    requires jpath.Length > 0
    modifies jpath
    ensures var o := Travel(text, old(jpath[..]), user, callback);
      data == o.st.user && ret == o.ret && jpath[..] == o.st.jpath
  {
    hide Document;
    var traveller := new Traveller(text, jpath, user, callback);
    ret := traveller.VisitDocument();
    if ret == END_OF_TEXT {
      ret := 0;
    }
    data := traveller.user;
  }
}
