/** `DSCDESERIALIZE_JSON_hetao_conf`, and writing and reading one after the other. */
module ConfReader {

  import opened JsonText
  import opened JsonSurvey
  import opened JsonTraveller
  import opened JsonOutput
  import opened HetaoConf
  import opened ConfRoundTrip
  import opened ConfExact
  import opened ConfSerializer
  import opened ConfSafety
  import opened ConfGrows
  import ConfRuns

  /** Read a text into a configuration. */
  method Deserialize(text: string, conf: Conf) returns (l: Loading, ret: int)
    ensures l == LoadInto(text, conf).st.user && ret == LoadInto(text, conf).ret
    ensures Grown(conf, l.conf)
    ensures Bounded(conf) && NoEarlyArray(text) && PlainKeys(text) ==> Safe(l)
  {
    hide OnNode, Bounded, NoEarlyArray, PlainKeys, Safe, Grown;
    NothingLost(text, conf);
    if Bounded(conf) && NoEarlyArray(text) && PlainKeys(text) { ConfRuns.LoadIsSafe(text, conf); }
    var jpath := new char[1025](_ => NUL);
    assert jpath[..] == seq(1025, _ => NUL);
    l, ret := TravelBuffer(text, jpath, Loading(conf, false), OnNode);
  }

  /** Whatever the first size of the buffer, the configuration that was printed into it is read back
      from it, in the form of `NormalConf`; nothing is lost exactly when the configuration is exact. */
  method PrintAndRead(c: Conf, suggested: int) returns (d: Conf)
    requires ConfFits(c)
    ensures d == NormalConf(c) && (d == Trim(c) <==> LosesNothing(c))
  {
    hide LoadInto, ConfText, ConfFits, Trim, LosesNothing, NormalConf;
    var out := new Output(suggested);
    var len := Serialize(c, out);
    assert out.Written() == ConfText(c);
    var l, ret := Deserialize(out.base[..out.offset], ZERO_CONF);
    ConfReadsBack(c);
    RoundTrip(c);
    d := l.conf;
  }
}
