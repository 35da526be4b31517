/** No text of a configuration gets longer than its field, and what does not fit is reported. */
module ConfSized {

  import opened JsonText
  import opened JsonToken
  import opened JsonTravel
  import opened JsonPrint
  import opened JsonLayout
  import opened JsonHold
  import opened Decimals
  import opened HetaoConf
  import opened ConfMeaning
  import opened ConfLoads
  import opened ConfRoundTrip
  import opened ConfExact
  import ConfGrows
  import ConfSafety
  import EscapeBytes

  // ----- the sizes of the record

  predicate ForwardSized(x: Forward) {
    && TextFits(x.forward_type, 16) && TextFits(x.forward_rule, 1) && ServerFits(x.forward_server)
    && forall y :: y in x.forward_servers ==> ServerFits(y)
  }

  predicate SiteSized(x: Website) {
    && TextFits(x.domain, 256) && TextFits(x.wwwroot, 1024) && ForwardSized(x.forward)
    && RewriteFits(x.rewrite) && (forall y :: y in x.rewrites ==> RewriteFits(y))
    && RedirectFits(x.redirect) && (forall y :: y in x.redirects ==> RedirectFits(y))
  }

  predicate ListenSized(x: Listen) {
    TextFits(x.ip, 15) && SiteSized(x.website) && forall y :: y in x.websites ==> SiteSized(y)
  }

  /** Every text leaves room for its terminator and holds none, and every `compress_enable` is a signed byte. */
  predicate Sized(c: Conf) {
    && TextFits(c.user, 64) && ListenSized(c.listen) && MimeFits(c.mime_type)
    && (forall y :: y in c.listens ==> ListenSized(y)) && (forall y :: y in c.mime_types ==> MimeFits(y))
  }

  lemma {:induction false} CStringFits(s: string, n: nat)
    requires |s| <= n
    ensures TextFits(CString(s), n)
    decreases |s|
  {
    if s != [] && s[0] != NUL && n > 0 { CStringFits(s[1..], n - 1); }
  }

  lemma FillFits(content: string, beyond: string, size: nat)
    ensures TextFits(Fill(content, beyond, size).0, size)
  {
    CStringFits(Fold(content + beyond, |content|, size).out, size);
    hide Fold, CString;
  }

  lemma PutTextSized(c: Conf, f: Field, s: string)
    requires Sized(c) && TextSize(f) > 0 && TextFits(s, TextSize(f))
    ensures Sized(PutText(c, f, s))
  {
    hide TextFits;
  }

  lemma PutIntSized(c: Conf, f: Field, n: int)
    requires Sized(c)
    ensures Sized(PutInt(c, f, n))
  {
    hide TextFits;
  }

  lemma LeaveSized(c: Conf, f: Field)
    requires Sized(c)
    ensures Sized(Leave(c, f))
  {
    hide TextFits;
    ZeroSized();
  }

  lemma ZeroSized()
    ensures Sized(ZERO_CONF)
  {
  }

  lemma NodeSized(l: Loading, e: Event)
    requires Sized(l.conf)
    ensures Sized(OnNode(l, e).0.conf)
  {
    hide Sized, Classify, Reachable, IsFull, Leave, PutText, PutInt, TextFits, Fill, Convert;
    var f := Classify(e.path);
    LeaveSized(l.conf, f);
    FillFits(e.content, e.beyond, TextSize(f));
    if TextSize(f) > 0 {
      PutTextSized(l.conf, f, Fill(e.content, e.beyond, TextSize(f)).0);
    } else {
      PutIntSized(l.conf, f, Convert(e.content + e.beyond, IntWidth(f)));
    }
  }

  /** Whatever the text, well-formed or not, and wherever its elements are addressed: the texts stay within their fields. */
  lemma LoadSized(text: string, base: Conf)
    requires Sized(base)
    ensures Sized(LoadInto(text, base).st.user.conf)
  {
    hide Sized, OnNode, KeyFree, Elsewhere;
    var inv, k := (l: Loading) => Sized(l.conf), seq(|text| + 2, _ => 'x');
    ConfGrows.LongKeyFree(text, k);
    assert Stable(inv, OnNode, k, 1025) by {
      forall l: Loading, e: Event, name: string, path: string | inv(l) && Elsewhere(e, name, path, k, 1025) ensures inv(OnNode(l, e).0) {
        NodeSized(l, e);
      }
    }
    TravelHolds(text, seq(1025, _ => NUL), Loading(base, false), OnNode, inv, k);
  }

  // ----- what does not fit is reported

  /** Any text for a field: kept whole with code 0, or reported with -7. */
  lemma PutCode(c: Conf, f: Field, s: string)
    requires TextSize(f) > 0
    ensures Put(c, f, Scalar.Text(Escape(s))).1 == if |s| <= TextSize(f) then 0 else -7
    ensures |s| <= TextSize(f) && NUL !in s ==> Put(c, f, Scalar.Text(Escape(s))).0 == PutText(c, f, s)
  {
    hide PutText, Fold, TextSize, CString;
    assert Escape(s) + [] == Escape(s);
    if |s| <= TextSize(f) {
      FoldEscape(s, [], TextSize(f));
      if NUL !in s { CStringWhole(s); }
    } else {
      EscapeBytes.FoldTooLong(s, [], TextSize(f));
    }
  }

  /** A document with the one key "user". */
  function UserText(s: string): string { ShowDocument(ScalarMember("user", Scalar.Text(Escape(s)), NoMember)) }

  /** It is loaded exactly when the text has at most 64 bytes, and otherwise refused with -7. */
  lemma UserCode(s: string, base: Conf)
    requires ConfSafety.Bounded(base)
    ensures LoadInto(UserText(s), base).ret == if |s| <= 64 then 0 else -7
    ensures |s| <= 64 && NUL !in s ==> LoadInto(UserText(s), base).st.user == Loading(base.(user := s), false)
  {
    var ms := ScalarMember("user", Scalar.Text(Escape(s)), NoMember);
    UserSound(s);
    LoadMeans(ms, base);
    PutCode(base, User, s);
    hide LoadInto, Put, Escape, ConfSafety.Bounded, Sound, ShowDocument;
  }

  lemma UserSound(s: string)
    ensures Sound(ScalarMember("user", Scalar.Text(Escape(s)), NoMember))
  {
    EscapeQuotable(s);
    EscapeWhole(s);
    KeysQuotable();
    hide Key, Quotable, Plain, Whole, Escape;
    UserKey();
    Nothing();
  }

  lemma UserKey()
    ensures Quotable("user") && Plain("user")
  {
    LettersQuotable("user");
  }

  function Capped<T>(xs: seq<T>, n: nat): seq<T> { if |xs| <= n then xs else xs[..n] }

  /** A document with a list of listen entries only. */
  function ListensText(xs: seq<Listen>): string { ShowDocument(ArrayMember("listen", ListenItems(xs), NoMember)) }

  /** It is loaded exactly when the list has at most 16 entries; otherwise the first 16 are kept and the load fails with -8. */
  lemma ListensCode(xs: seq<Listen>)
    requires forall x :: x in xs ==> ListenFits(x)
    ensures var o := Load(ListensText(xs));
      && o.ret == (if |xs| <= 16 then 0 else -8)
      && o.st.user == Loading(WithListens(ZERO_CONF, NormalListens(Capped(xs, 16))), false)
  {
    var ms := ArrayMember("listen", ListenItems(xs), NoMember);
    hide LoadInto, ConfSafety.Bounded, Sound, ShowDocument, ListenItems, ListenFits, NormalListens, MeanItems, Key, Quotable;
    KeysQuotable();
    Nothing();
    ListenItemsSound(xs);
    ItemsThen("listen", ListenItems(xs), NoMember);
    StartBounded();
    LoadMeans(ms, ZERO_CONF);
    ListensFill(xs, ZERO_CONF);
    MeanOne("listen", ListenItems(xs));
    assert ZERO_CONF.listens == [];
  }

  lemma StartBounded()
    ensures ConfSafety.Bounded(ZERO_CONF)
  {
  }

  lemma MeanOne(key: string, items: ItemList)
    ensures MeanMembers(ArrayMember(key, items, NoMember), Top, ZERO_CONF) == MeanItems(items, FieldAt(Top, key), Into(Top, key), ZERO_CONF)
  {
    hide MeanItems, FieldAt, Into;
  }

  lemma {:induction false} ListensFill(xs: seq<Listen>, c: Conf)
    requires (forall x :: x in xs ==> ListenFits(x)) && |c.listens| <= 16 && c.listen == ZERO_LISTEN
    ensures var n := 16 - |c.listens|;
      MeanItems(ListenItems(xs), Listens, Listening, c)
        == (WithListens(c, NormalListens(Capped(xs, n))), if |xs| <= n then 0 else -8)
    decreases |xs|
  {
    if xs == [] {
      assert c.listens + [] == c.listens;
    } else if |c.listens| == 16 {
      assert c.listens + [] == c.listens && xs[..0] == [];
      hide MeanMembers, ListenMembers;
    } else {
      hide MeanItems, MeanMembers, ListenMembers, NormalListen, ListenFits;
      ListenMeans(xs[0], c);
      ItemNext(ListenMembers(xs[0]), ListenItems(xs[1..]), Listens, Listening, c, c.(listen := NormalListen(xs[0])));
      ListensFill(xs[1..], WithListens(c, [NormalListen(xs[0])]));
      var n := 16 - |c.listens|;
      CappedNext(xs, n);
      WithListensMore(c, NormalListen(xs[0]), NormalListens(Capped(xs[1..], n - 1)));
    }
  }

  lemma CappedNext<T>(xs: seq<T>, n: nat)
    requires xs != [] && n > 0
    ensures var ys := Capped(xs, n); ys != [] && ys[0] == xs[0] && ys[1..] == Capped(xs[1..], n - 1)
  {
  }
}
