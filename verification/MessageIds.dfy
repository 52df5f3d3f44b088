/** Canonical Gmail message identities (src/model.rs) and the body file names built from them
    (src/cache.rs). */
module MessageIds {
  import opened Numbers
  import opened Results
  import opened Text

  const PREFIX := "gmail-msg:"

  datatype MessageId = MessageId(text: string)

  function Gmail(xGmMsgid: nat): MessageId {
    MessageId(PREFIX + Decimal(xGmMsgid))
  }

  /** The strict parser: no sign, no leading zero, nothing that overflows 64 bits. */
  function GmailValue(id: MessageId): Option<nat> {
    if !(PREFIX <= id.text) then None
    else
      var value := id.text[|PREFIX|..];
      if value == "" || !AllDigits(value) || value[0] == '0' then None
      else if ParseDecimal(value) > U64_MAX then None
      else Some(ParseDecimal(value))
  }

  /** Printing and parsing undo each other on 1 .. 2^64-1, and nothing else parses. */
  lemma GmailRoundTrip(id: MessageId, n: nat)
    ensures GmailValue(id) == Some(n) <==> 1 <= n <= U64_MAX && id == Gmail(n)
  {
    if GmailValue(id) == Some(n) {
      var value := id.text[|PREFIX|..];
      ParsedPrints(value);
      assert id.text == PREFIX + value;
    }
    if 1 <= n <= U64_MAX && id == Gmail(n) {
      DecimalParses(n);
      assert id.text[|PREFIX|..] == Decimal(n);
    }
  }

  function BodyFileName(id: MessageId): Option<string> {
    match GmailValue(id)
    case None => None
    case Some(n) => Some("gm-" + Decimal(n) + ".json")
  }

  /** Distinct messages never share a body file. */
  lemma BodyFileNameInjective(a: MessageId, b: MessageId)
    requires BodyFileName(a).Some? && BodyFileName(a) == BodyFileName(b)
    ensures a == b
  {
    var m, n := GmailValue(a).value, GmailValue(b).value;
    GmailRoundTrip(a, m);
    GmailRoundTrip(b, n);
    DecimalParses(m);
    DecimalParses(n);
    var name := BodyFileName(a).value;
    assert name[3..|name| - 5] == Decimal(m) && name[3..|name| - 5] == Decimal(n);
  }

  predicate EndsWith(s: string, suffix: string) {
    |suffix| <= |s| && s[|s| - |suffix|..] == suffix
  }

  predicate Contains(s: string, part: string) {
    exists i | 0 <= i <= |s| :: part <= s[i..]
  }

  /** A body file is neither the manifest nor a temporary. */
  lemma BodyFileNameShape(id: MessageId)
    requires BodyFileName(id).Some?
    ensures var name := BodyFileName(id).value;
            EndsWith(name, ".json") && !Contains(name, ".tmp-") && name != "manifest.json"
  {
    var n := GmailValue(id).value;
    var name := BodyFileName(id).value;
    DecimalParses(n);
    assert name[0] == 'g';
    forall i | 0 <= i <= |name| ensures !(".tmp-" <= name[i..]) {
      assert i < |name| ==> name[i..][0] == name[i];
      assert i + 1 < |name| ==> name[i..][1] == name[i + 1];
      assert 3 <= i < |name| - 5 ==> name[i] != '.';
    }
  }
}
