/** `DSCSERIALIZE_JSON_DUP_hetao_conf`: print a configuration into a growing buffer. */
module ConfSerializer {

  import opened JsonText
  import opened JsonToken
  import opened JsonPrint
  import opened Decimals
  import opened HetaoConf
  import opened JsonOutput

  /** Every method appends a text; what it is asked to append is stated in front of `next`, the
      text that comes after it. */
  twostate predicate Wrote(out: Output, shown: string, next: string)
    reads out, out.base
  {
    && old(out.Valid()) && out.Valid() && (out.base == old(out.base) || fresh(out.base))
    && out.Written() + next == old(out.Written()) + shown
  }

  method Put(out: Output, text: string, ghost next: string)
    requires out.Valid()
    modifies out, out.base
    ensures Wrote(out, text + next, next)
    ensures out.base[out.offset] == NUL
  {
    out.Emit(text);
    assert out.Written() + next == old(out.Written()) + (text + next);
  }

  method PutEscaped(out: Output, text: string, ghost next: string)
    requires out.Valid()
    modifies out, out.base
    ensures Wrote(out, Escape(text) + next, next)
  {
    out.EmitEscaped(text);
    assert out.Written() + next == old(out.Written()) + (Escape(text) + next);
  }

  method PutText(out: Output, s: string, ghost next: string)
    requires out.Valid()
    modifies out, out.base
    ensures Wrote(out, ShowScalar(TextOf(s), next), next)
  {
    if s != [] && s[0] == MARKER[0] {
      Put(out, "null", next);
    } else {
      Put(out, "\"", Escape(s) + ("\"" + next));
      PutEscaped(out, s, "\"" + next);
      Put(out, "\"", next);
    }
  }

  method PutInt(out: Output, n: int, ghost next: string)
    requires out.Valid()
    modifies out, out.base
    ensures Wrote(out, ShowScalar(IntOf(n), next), next)
  {
    Put(out, Decimal(n), next);
  }

  lemma KeyText(key: string, next: string)
    ensures ("\"" + key + "\" : ") + next == ShowText(key, " : " + next)
  {
    assert ("\"" + key + "\" : ") == "\"" + (key + ("\"" + " : "));
  }

  method PutKey(out: Output, key: string, depth: nat, ghost next: string)
    requires out.Valid()
    modifies out, out.base
    ensures Wrote(out, ShowKey(key, depth, next), next)
  {
    KeyText(key, next);
    Put(out, Tabs(depth), ShowText(key, " : " + next));
    Put(out, "\"" + key + "\" : ", next);
  }

  method PutMark(out: Output, mark: string, depth: nat, ghost next: string)
    requires out.Valid()
    modifies out, out.base
    ensures Wrote(out, ShowMark(mark, depth, next), next)
  {
    assert (Tabs(depth) + mark) + next == ShowMark(mark, depth, next);
    Put(out, Tabs(depth) + mark, next);
  }

  /** A key on a line of its own, and the opening mark on the next line. */
  method PutOpen(out: Output, key: string, mark: string, depth: nat, ghost next: string)
    requires out.Valid()
    modifies out, out.base
    ensures Wrote(out, ShowKey(key, depth, "\n" + ShowMark(mark, depth, next)), next)
  {
    ghost var inside := ShowMark(mark, depth, next);
    KeyText(key, "\n" + inside);
    assert (Tabs(depth) + ("\"" + key + "\" : ") + "\n") + inside == ShowKey(key, depth, "\n" + inside);
    Put(out, Tabs(depth) + ("\"" + key + "\" : ") + "\n", inside);
    PutMark(out, mark, depth, next);
  }

  /** A member, up to the one after it. */
  method PutTextMember(out: Output, key: string, s: string, depth: nat, last: bool, ghost more: MemberList, ghost next: string)
    requires out.Valid() && last == more.NoMember?
    modifies out, out.base
    ensures Wrote(out, ShowMembers(ScalarMember(key, TextOf(s), more), depth, next), ShowMembers(more, depth, next))
  {
    hide ShowKey, ShowScalar, Separator, TextOf;
    ghost var rest := ShowMembers(more, depth, next);
    ghost var after := Separator(last) + rest;
    PutKey(out, key, depth, ShowScalar(TextOf(s), after));
    PutText(out, s, after);
    Put(out, Separator(last), rest);
  }

  method PutIntMember(out: Output, key: string, n: int, depth: nat, last: bool, ghost more: MemberList, ghost next: string)
    requires out.Valid() && last == more.NoMember?
    modifies out, out.base
    ensures Wrote(out, ShowMembers(ScalarMember(key, IntOf(n), more), depth, next), ShowMembers(more, depth, next))
  {
    hide ShowKey, ShowScalar, Separator, IntOf;
    ghost var rest := ShowMembers(more, depth, next);
    ghost var after := Separator(last) + rest;
    PutKey(out, key, depth, ShowScalar(IntOf(n), after));
    PutInt(out, n, after);
    Put(out, Separator(last), rest);
  }

  /** The closing mark of a member and what follows it. */
  ghost function Closing(mark: string, depth: nat, more: MemberList, next: string): string {
    ShowMark(mark, depth, Separator(more.NoMember?) + ShowMembers(more, depth, next))
  }

  method PutOpenArray(out: Output, key: string, depth: nat, ghost items: ItemList, ghost more: MemberList, ghost next: string)
    requires out.Valid()
    modifies out, out.base
    ensures Wrote(out, ShowMembers(ArrayMember(key, items, more), depth, next),
      ShowItems(items, depth, Closing("]", depth, more, next)))
  {
    hide ShowKey, ShowMark, ShowItems, Separator;
    PutOpen(out, key, "[\n", depth, ShowItems(items, depth, Closing("]", depth, more, next)));
  }

  method PutOpenObject(out: Output, key: string, depth: nat, ghost ms: MemberList, ghost more: MemberList, ghost next: string)
    requires out.Valid()
    modifies out, out.base
    ensures Wrote(out, ShowMembers(ObjectMember(key, ms, more), depth, next),
      ShowMembers(ms, depth + 1, Closing("}", depth, more, next)))
  {
    ghost var inside := ShowMembers(ms, depth + 1, Closing("}", depth, more, next));
    ObjectText(key, depth, ms, more, next);
    hide ShowKey, ShowMark, Separator, ShowMembers;
    PutOpen(out, key, "{\n", depth, inside);
  }

  lemma ObjectText(key: string, depth: nat, ms: MemberList, more: MemberList, next: string)
    ensures ShowMembers(ObjectMember(key, ms, more), depth, next) == ShowKey(key, depth,
      "\n" + ShowMark("{\n", depth, ShowMembers(ms, depth + 1, Closing("}", depth, more, next))))
  {
    hide ShowKey, ShowMark, Separator;
  }

  /** A closing mark, and what stands before the next member or item. */
  method PutClose(out: Output, mark: string, depth: nat, last: bool, ghost next: string)
    requires out.Valid()
    modifies out, out.base
    ensures Wrote(out, ShowMark(mark, depth, Separator(last) + next), next)
    ensures out.base[out.offset] == NUL
  {
    hide Separator;
    assert (Tabs(depth) + mark + Separator(last)) + next == ShowMark(mark, depth, Separator(last) + next);
    Put(out, Tabs(depth) + mark + Separator(last), next);
  }

  method PutCloseMember(out: Output, mark: string, depth: nat, last: bool, ghost more: MemberList, ghost next: string)
    requires out.Valid() && last == more.NoMember?
    modifies out, out.base
    ensures Wrote(out, Closing(mark, depth, more, next), ShowMembers(more, depth, next))
  {
    hide Separator, ShowMark;
    PutClose(out, mark, depth, last, ShowMembers(more, depth, next));
  }

  lemma NoMembers(depth: nat, next: string)
    ensures ShowMembers(NoMember, depth, next) == next
  {
  }

  method PutRewrite(out: Output, x: Rewrite, ghost next: string)
    requires out.Valid()
    modifies out, out.base
    ensures Wrote(out, ShowMembers(RewriteMembers(x), 4, next), next)
  {
    hide ShowMembers, TextOf, IntOf;
    NoMembers(4, next);
    ghost var second := ScalarMember("new_uri", TextOf(x.new_uri), NoMember);
    PutTextMember(out, "pattern", x.pattern, 4, false, second, next);
    PutTextMember(out, "new_uri", x.new_uri, 4, true, NoMember, next);
  }

  method PutRewrites(out: Output, xs: seq<Rewrite>, ghost next: string)
    requires out.Valid()
    modifies out, out.base
    ensures Wrote(out, ShowItems(RewriteItems(xs), 3, next), next)
  {
    hide ShowMark, ShowMembers, Separator, RewriteMembers;
    ghost var items := RewriteItems(xs);
    assert xs[0..] == xs;
    for i := 0 to |xs|
      invariant Wrote(out, ShowItems(items, 3, next), ShowItems(RewriteItems(xs[i..]), 3, next))
    {
      ghost var ms, more := RewriteMembers(xs[i]), RewriteItems(xs[i + 1..]);
      assert xs[i..][1..] == xs[i + 1..];
      ghost var rest := ShowItems(more, 3, next);
      ghost var closing := ShowMark("}", 3, Separator(i == |xs| - 1) + rest);
      assert more.NoItem? == (i == |xs| - 1);
      PutMark(out, "{\n", 3, ShowMembers(ms, 4, closing));
      PutRewrite(out, xs[i], closing);
      PutClose(out, "}", 3, i == |xs| - 1, rest);
    }
    assert xs[|xs|..] == [];
  }

  method PutRedirect(out: Output, x: Redirect, ghost next: string)
    requires out.Valid()
    modifies out, out.base
    ensures Wrote(out, ShowMembers(RedirectMembers(x), 4, next), next)
  {
    hide ShowMembers, TextOf, IntOf;
    NoMembers(4, next);
    ghost var second := ScalarMember("new_domain", TextOf(x.new_domain), NoMember);
    PutTextMember(out, "domain", x.domain, 4, false, second, next);
    PutTextMember(out, "new_domain", x.new_domain, 4, true, NoMember, next);
  }

  method PutRedirects(out: Output, xs: seq<Redirect>, ghost next: string)
    requires out.Valid()
    modifies out, out.base
    ensures Wrote(out, ShowItems(RedirectItems(xs), 3, next), next)
  {
    hide ShowMark, ShowMembers, Separator, RedirectMembers;
    ghost var items := RedirectItems(xs);
    assert xs[0..] == xs;
    for i := 0 to |xs|
      invariant Wrote(out, ShowItems(items, 3, next), ShowItems(RedirectItems(xs[i..]), 3, next))
    {
      ghost var ms, more := RedirectMembers(xs[i]), RedirectItems(xs[i + 1..]);
      assert xs[i..][1..] == xs[i + 1..];
      ghost var rest := ShowItems(more, 3, next);
      ghost var closing := ShowMark("}", 3, Separator(i == |xs| - 1) + rest);
      assert more.NoItem? == (i == |xs| - 1);
      PutMark(out, "{\n", 3, ShowMembers(ms, 4, closing));
      PutRedirect(out, xs[i], closing);
      PutClose(out, "}", 3, i == |xs| - 1, rest);
    }
    assert xs[|xs|..] == [];
  }

  method PutServer(out: Output, x: Server, ghost next: string)
    requires out.Valid()
    modifies out, out.base
    ensures Wrote(out, ShowMembers(ServerMembers(x), 5, next), next)
  {
    hide ShowMembers, TextOf, IntOf;
    NoMembers(5, next);
    ghost var second := ScalarMember("port", IntOf(x.port), NoMember);
    PutTextMember(out, "ip", x.ip, 5, false, second, next);
    PutIntMember(out, "port", x.port, 5, true, NoMember, next);
  }

  method PutServers(out: Output, xs: seq<Server>, ghost next: string)
    requires out.Valid()
    modifies out, out.base
    ensures Wrote(out, ShowItems(ServerItems(xs), 4, next), next)
  {
    hide ShowMark, ShowMembers, Separator, ServerMembers;
    ghost var items := ServerItems(xs);
    assert xs[0..] == xs;
    for i := 0 to |xs|
      invariant Wrote(out, ShowItems(items, 4, next), ShowItems(ServerItems(xs[i..]), 4, next))
    {
      ghost var ms, more := ServerMembers(xs[i]), ServerItems(xs[i + 1..]);
      assert xs[i..][1..] == xs[i + 1..];
      ghost var rest := ShowItems(more, 4, next);
      ghost var closing := ShowMark("}", 4, Separator(i == |xs| - 1) + rest);
      assert more.NoItem? == (i == |xs| - 1);
      PutMark(out, "{\n", 4, ShowMembers(ms, 5, closing));
      PutServer(out, xs[i], closing);
      PutClose(out, "}", 4, i == |xs| - 1, rest);
    }
    assert xs[|xs|..] == [];
  }

  method PutForward(out: Output, x: Forward, ghost next: string)
    requires out.Valid()
    modifies out, out.base
    ensures Wrote(out, ShowMembers(ForwardMembers(x), 4, next), next)
  {
    hide ShowMembers, ShowItems, Closing, TextOf, ServerItems;
    NoMembers(4, next);
    ghost var items := ServerItems(x.forward_servers);
    ghost var servers := ArrayMember("forward_server", items, NoMember);
    ghost var rule := ScalarMember("forward_rule", TextOf(x.forward_rule), servers);
    PutTextMember(out, "forward_type", x.forward_type, 4, false, rule, next);
    PutTextMember(out, "forward_rule", x.forward_rule, 4, false, servers, next);
    PutOpenArray(out, "forward_server", 4, items, NoMember, next);
    PutServers(out, x.forward_servers, Closing("]", 4, NoMember, next));
    PutCloseMember(out, "]", 4, true, NoMember, next);
  }

  method PutRewriteMember(out: Output, xs: seq<Rewrite>, last: bool, ghost more: MemberList, ghost next: string)
    requires out.Valid() && last == more.NoMember?
    modifies out, out.base
    ensures Wrote(out, ShowMembers(ArrayMember("rewrite", RewriteItems(xs), more), 3, next), ShowMembers(more, 3, next))
  {
    hide ShowMembers, ShowItems, Closing, RewriteItems;
    PutOpenArray(out, "rewrite", 3, RewriteItems(xs), more, next);
    PutRewrites(out, xs, Closing("]", 3, more, next));
    PutCloseMember(out, "]", 3, last, more, next);
  }

  method PutRedirectMember(out: Output, xs: seq<Redirect>, last: bool, ghost more: MemberList, ghost next: string)
    requires out.Valid() && last == more.NoMember?
    modifies out, out.base
    ensures Wrote(out, ShowMembers(ArrayMember("redirect", RedirectItems(xs), more), 3, next), ShowMembers(more, 3, next))
  {
    hide ShowMembers, ShowItems, Closing, RedirectItems;
    PutOpenArray(out, "redirect", 3, RedirectItems(xs), more, next);
    PutRedirects(out, xs, Closing("]", 3, more, next));
    PutCloseMember(out, "]", 3, last, more, next);
  }

  method PutForwardMember(out: Output, x: Forward, last: bool, ghost more: MemberList, ghost next: string)
    requires out.Valid() && last == more.NoMember?
    modifies out, out.base
    ensures Wrote(out, ShowMembers(ObjectMember("forward", ForwardMembers(x), more), 3, next), ShowMembers(more, 3, next))
  {
    hide ShowMembers, Closing, ForwardMembers;
    PutOpenObject(out, "forward", 3, ForwardMembers(x), more, next);
    PutForward(out, x, Closing("}", 3, more, next));
    PutCloseMember(out, "}", 3, last, more, next);
  }

  method PutWebsite(out: Output, x: Website, ghost next: string)
    requires out.Valid()
    modifies out, out.base
    ensures Wrote(out, ShowMembers(WebsiteMembers(x), 3, next), next)
  {
    hide ShowMembers, ShowItems, Closing, TextOf, RewriteItems, RedirectItems, ForwardMembers;
    NoMembers(3, next);
    ghost var forward := ObjectMember("forward", ForwardMembers(x.forward), NoMember);
    ghost var redirects := ArrayMember("redirect", RedirectItems(x.redirects), forward);
    ghost var rewrites := ArrayMember("rewrite", RewriteItems(x.rewrites), redirects);
    ghost var wwwroot := ScalarMember("wwwroot", TextOf(x.wwwroot), rewrites);
    PutTextMember(out, "domain", x.domain, 3, false, wwwroot, next);
    PutTextMember(out, "wwwroot", x.wwwroot, 3, false, rewrites, next);
    PutRewriteMember(out, x.rewrites, false, redirects, next);
    PutRedirectMember(out, x.redirects, false, forward, next);
    PutForwardMember(out, x.forward, true, NoMember, next);
  }

  method PutWebsites(out: Output, xs: seq<Website>, ghost next: string)
    requires out.Valid()
    modifies out, out.base
    ensures Wrote(out, ShowItems(WebsiteItems(xs), 2, next), next)
  {
    hide ShowMark, ShowMembers, Separator, WebsiteMembers;
    ghost var items := WebsiteItems(xs);
    assert xs[0..] == xs;
    for i := 0 to |xs|
      invariant Wrote(out, ShowItems(items, 2, next), ShowItems(WebsiteItems(xs[i..]), 2, next))
    {
      ghost var ms, more := WebsiteMembers(xs[i]), WebsiteItems(xs[i + 1..]);
      assert xs[i..][1..] == xs[i + 1..];
      ghost var rest := ShowItems(more, 2, next);
      ghost var closing := ShowMark("}", 2, Separator(i == |xs| - 1) + rest);
      assert more.NoItem? == (i == |xs| - 1);
      PutMark(out, "{\n", 2, ShowMembers(ms, 3, closing));
      PutWebsite(out, xs[i], closing);
      PutClose(out, "}", 2, i == |xs| - 1, rest);
    }
    assert xs[|xs|..] == [];
  }

  method PutListen(out: Output, x: Listen, ghost next: string)
    requires out.Valid()
    modifies out, out.base
    ensures Wrote(out, ShowMembers(ListenMembers(x), 2, next), next)
  {
    hide ShowMembers, ShowItems, Closing, TextOf, IntOf, WebsiteItems;
    NoMembers(2, next);
    ghost var items := WebsiteItems(x.websites);
    ghost var websites := ArrayMember("website", items, NoMember);
    ghost var port := ScalarMember("port", IntOf(x.port), websites);
    PutTextMember(out, "ip", x.ip, 2, false, port, next);
    PutIntMember(out, "port", x.port, 2, false, websites, next);
    PutOpenArray(out, "website", 2, items, NoMember, next);
    PutWebsites(out, x.websites, Closing("]", 2, NoMember, next));
    PutCloseMember(out, "]", 2, true, NoMember, next);
  }

  method PutListens(out: Output, xs: seq<Listen>, ghost next: string)
    requires out.Valid()
    modifies out, out.base
    ensures Wrote(out, ShowItems(ListenItems(xs), 1, next), next)
  {
    hide ShowMark, ShowMembers, Separator, ListenMembers;
    ghost var items := ListenItems(xs);
    assert xs[0..] == xs;
    for i := 0 to |xs|
      invariant Wrote(out, ShowItems(items, 1, next), ShowItems(ListenItems(xs[i..]), 1, next))
    {
      ghost var ms, more := ListenMembers(xs[i]), ListenItems(xs[i + 1..]);
      assert xs[i..][1..] == xs[i + 1..];
      ghost var rest := ShowItems(more, 1, next);
      ghost var closing := ShowMark("}", 1, Separator(i == |xs| - 1) + rest);
      assert more.NoItem? == (i == |xs| - 1);
      PutMark(out, "{\n", 1, ShowMembers(ms, 2, closing));
      PutListen(out, xs[i], closing);
      PutClose(out, "}", 1, i == |xs| - 1, rest);
    }
    assert xs[|xs|..] == [];
  }

  method PutMime(out: Output, x: MimeType, ghost next: string)
    requires out.Valid()
    modifies out, out.base
    ensures Wrote(out, ShowMembers(MimeMembers(x), 3, next), next)
  {
    hide ShowMembers, TextOf, IntOf;
    NoMembers(3, next);
    ghost var compress := ScalarMember("compress_enable", IntOf(x.compress_enable), NoMember);
    ghost var mime := ScalarMember("mime", TextOf(x.mime), compress);
    PutTextMember(out, "type", x.kind, 3, false, mime, next);
    PutTextMember(out, "mime", x.mime, 3, false, compress, next);
    PutIntMember(out, "compress_enable", x.compress_enable, 3, true, NoMember, next);
  }

  method PutMimes(out: Output, xs: seq<MimeType>, ghost next: string)
    requires out.Valid()
    modifies out, out.base
    ensures Wrote(out, ShowItems(MimeItems(xs), 2, next), next)
  {
    hide ShowMark, ShowMembers, Separator, MimeMembers;
    ghost var items := MimeItems(xs);
    assert xs[0..] == xs;
    for i := 0 to |xs|
      invariant Wrote(out, ShowItems(items, 2, next), ShowItems(MimeItems(xs[i..]), 2, next))
    {
      ghost var ms, more := MimeMembers(xs[i]), MimeItems(xs[i + 1..]);
      assert xs[i..][1..] == xs[i + 1..];
      ghost var rest := ShowItems(more, 2, next);
      ghost var closing := ShowMark("}", 2, Separator(i == |xs| - 1) + rest);
      assert more.NoItem? == (i == |xs| - 1);
      PutMark(out, "{\n", 2, ShowMembers(ms, 3, closing));
      PutMime(out, xs[i], closing);
      PutClose(out, "}", 2, i == |xs| - 1, rest);
    }
    assert xs[|xs|..] == [];
  }

  method PutMimeTypes(out: Output, xs: seq<MimeType>, ghost next: string)
    requires out.Valid()
    modifies out, out.base
    ensures Wrote(out, ShowMembers(ArrayMember("mime_type", MimeItems(xs), NoMember), 2, next), next)
  {
    hide ShowMembers, ShowItems, Closing, MimeItems;
    NoMembers(2, next);
    PutOpenArray(out, "mime_type", 2, MimeItems(xs), NoMember, next);
    PutMimes(out, xs, Closing("]", 2, NoMember, next));
    PutCloseMember(out, "]", 2, true, NoMember, next);
  }

  method PutConf(out: Output, c: Conf, ghost next: string)
    requires out.Valid()
    modifies out, out.base
    ensures Wrote(out, ShowMembers(ConfMembers(c), 1, next), next)
  {
    hide ShowMembers, ShowItems, Closing, TextOf, IntOf, ListenItems, MimeItems;
    NoMembers(1, next);
    ghost var mime := ArrayMember("mime_type", MimeItems(c.mime_types), NoMember);
    ghost var mimes := ObjectMember("mime_types", mime, NoMember);
    ghost var listens := ArrayMember("listen", ListenItems(c.listens), mimes);
    ghost var user := ScalarMember("user", TextOf(c.user), listens);
    PutIntMember(out, "worker_processes", c.worker_processes, 1, false, user, next);
    PutTextMember(out, "user", c.user, 1, false, listens, next);
    PutOpenArray(out, "listen", 1, ListenItems(c.listens), mimes, next);
    PutListens(out, c.listens, Closing("]", 1, mimes, next));
    PutCloseMember(out, "]", 1, false, mimes, next);
    PutOpenObject(out, "mime_types", 1, mime, NoMember, next);
    PutMimeTypes(out, c.mime_types, Closing("}", 1, NoMember, next));
    PutCloseMember(out, "}", 1, true, NoMember, next);
  }

  lemma EndText(c: Conf)
    ensures ConfText(c) == ShowMark("{\n", 0, ShowMembers(ConfMembers(c), 1, ShowMark("}", 0, Separator(true) + [])))
  {
    hide ConfMembers, ShowMembers, ShowMark;
    assert Separator(true) + [] == "\n";
  }

  /** Append a whole configuration; the length of the text, without the terminator, is returned. */
  method Serialize(c: Conf, out: Output) returns (len: int)
    requires out.Valid()
    modifies out, out.base
    ensures out.Valid() && (out.base == old(out.base) || fresh(out.base))
    ensures out.Written() == old(out.Written()) + ConfText(c) && out.base[out.offset] == NUL
    ensures len == |ConfText(c)|
  {
    hide ShowMark, ShowMembers, Separator, ConfMembers, ConfText;
    var begin := out.base.Length - 1 - out.remain;
    ghost var end := ShowMark("}", 0, Separator(true) + []);
    EndText(c);
    PutMark(out, "{\n", 0, ShowMembers(ConfMembers(c), 1, end));
    PutConf(out, c, end);
    PutClose(out, "}", 0, true, []);
    len := out.base.Length - 1 - begin - out.remain;
    assert out.Written() + [] == out.Written();
    assert |out.Written()| == |old(out.Written())| + |ConfText(c)|;
  }
}
