/** The S3 adapter's two delicate parts: the XML entities around object keys (section 4.6 of XML 1.0),
    and bulk deletion in chunks. */
module ObjectStorage {
  import opened Wrappers

  // ---- entities ----

  /** `value.replaceAll(pattern, replacement)`: leftmost matches that do not overlap. */
  function ReplaceAll(s: string, pattern: string, replacement: string): string
    requires pattern != []
    decreases |s|
  {
    if |s| < |pattern| then s
    else if s[..|pattern|] == pattern then replacement + ReplaceAll(s[|pattern|..], pattern, replacement)
    else [s[0]] + ReplaceAll(s[1..], pattern, replacement)
  }

  function Encode(s: string): string {
    var s := ReplaceAll(s, "&", "&amp;");
    var s := ReplaceAll(s, "<", "&lt;");
    var s := ReplaceAll(s, ">", "&gt;");
    var s := ReplaceAll(s, "\"", "&quot;");
    ReplaceAll(s, "'", "&apos;")
  }

  function Decode(s: string): string {
    var s := ReplaceAll(s, "&lt;", "<");
    var s := ReplaceAll(s, "&gt;", ">");
    var s := ReplaceAll(s, "&quot;", "\"");
    var s := ReplaceAll(s, "&apos;", "'");
    ReplaceAll(s, "&amp;", "&")
  }

  /** The characters with an entity. */
  const SPECIAL: set<char> := {'&', '<', '>', '\"', '\''}

  function Entity(c: char): string {
    if c == '&' then "&amp;"
    else if c == '<' then "&lt;"
    else if c == '>' then "&gt;"
    else if c == '\"' then "&quot;"
    else if c == '\'' then "&apos;"
    else [c]
  }

  /** Each character on its own: an entity if it is among `escaped`, itself otherwise. */
  function Escape(s: string, escaped: set<char>): string {
    if s == [] then []
    else (if s[0] in escaped then Entity(s[0]) else [s[0]]) + Escape(s[1..], escaped)
  }

  // ---- encoding is escaping character by character ----

  lemma {:induction false} ReplaceCharDistributes(a: string, b: string, c: char, r: string)
    ensures ReplaceAll(a + b, [c], r) == ReplaceAll(a, [c], r) + ReplaceAll(b, [c], r)
    decreases |a|
  {
    if a == [] {
      assert a + b == b;
    } else {
      ReplaceCharDistributes(a[1..], b, c, r);
      assert (a + b)[1..] == a[1..] + b;
      assert (a + b)[..1] == [a[0]] && a[..1] == [a[0]];
    }
  }

  lemma {:induction false} ReplaceCharAbsent(s: string, c: char, r: string)
    requires c !in s
    ensures ReplaceAll(s, [c], r) == s
    decreases |s|
  {
    if s != [] {
      assert s[..1] == [s[0]] && s[0] in s;
      ReplaceCharAbsent(s[1..], c, r);
    }
  }

  lemma EntityOfAnother(c: char, d: char)
    requires c in SPECIAL && d in SPECIAL && c != d && c != '&'
    ensures c !in Entity(d)
  {
  }

  /** A later replacement leaves the entities written by the earlier ones alone, the ampersand being
      the first to be replaced. */
  lemma {:induction false} EscapeOneMore(s: string, done: set<char>, c: char)
    requires done <= SPECIAL && c in SPECIAL - done && (c == '&' ==> done == {})
    ensures ReplaceAll(Escape(s, done), [c], Entity(c)) == Escape(s, done + {c})
    decreases |s|
  {
    if s != [] {
      var head := if s[0] in done then Entity(s[0]) else [s[0]];
      ReplaceCharDistributes(head, Escape(s[1..], done), c, Entity(c));
      EscapeOneMore(s[1..], done, c);
      if s[0] == c {
        MatchEntity([c], [], Entity(c));
        assert [c] + [] == [c] && Entity(c) + [] == Entity(c);
      } else {
        if s[0] in done { EntityOfAnother(c, s[0]); }
        ReplaceCharAbsent(head, c, Entity(c));
      }
    }
  }

  lemma {:induction false} EscapeNothing(s: string)
    ensures Escape(s, {}) == s
  {
    if s != [] {
      EscapeNothing(s[1..]);
    }
  }

  lemma EncodeEscapes(s: string)
    ensures Encode(s) == Escape(s, SPECIAL)
  {
    var one := {'&'};
    var two := one + {'<'};
    var three := two + {'>'};
    var four := three + {'\"'};
    EscapeNothing(s);
    assert {} + {'&'} == one && four + {'\''} == SPECIAL;
    EscapeOneMore(s, {}, '&');
    EscapeOneMore(s, one, '<');
    EscapeOneMore(s, two, '>');
    EscapeOneMore(s, three, '\"');
    EscapeOneMore(s, four, '\'');
  }

  // ---- decoding removes one entity after another ----

  /** A token in which the pattern cannot begin is passed over whole. */
  lemma {:induction false} SkipToken(t: string, u: string, pattern: string, r: string)
    requires pattern != [] && forall i | 0 <= i < |t| :: t[i] != pattern[0]
    ensures ReplaceAll(t + u, pattern, r) == t + ReplaceAll(u, pattern, r)
    decreases |t|
  {
    if t == [] {
      assert t + u == u;
    } else {
      SkipToken(t[1..], u, pattern, r);
      assert (t + u)[1..] == t[1..] + u;
      assert |t + u| >= |pattern| ==> (t + u)[..|pattern|][0] == t[0];
      assert |t + u| < |pattern| ==> ReplaceAll(u, pattern, r) == u;
    }
  }

  /** Another entity differs from the pattern early on, and has no second ampersand. */
  lemma SkipEntity(t: string, u: string, pattern: string, r: string, j: nat)
    requires j < |t| && j < |pattern| && t[j] != pattern[j]
    requires forall i | 1 <= i < |t| :: t[i] != pattern[0]
    ensures ReplaceAll(t + u, pattern, r) == t + ReplaceAll(u, pattern, r)
  {
    if |t + u| >= |pattern| {
      NoMatchHere(t, u, pattern, j);
      SkipRest(t[0], t[1..], u, pattern, r);
      assert [t[0]] + t[1..] == t;
    }
  }

  lemma SkipRest(c: char, rest: string, u: string, pattern: string, r: string)
    requires pattern != [] && |[c] + rest + u| >= |pattern| && ([c] + rest + u)[..|pattern|] != pattern
    requires forall i | 0 <= i < |rest| :: rest[i] != pattern[0]
    ensures ReplaceAll([c] + rest + u, pattern, r) == [c] + rest + ReplaceAll(u, pattern, r)
  {
    assert [c] + rest + u == [c] + (rest + u);
    PassOver(c, rest + u, pattern, r);
    SkipToken(rest, u, pattern, r);
    assert [c] + (rest + ReplaceAll(u, pattern, r)) == [c] + rest + ReplaceAll(u, pattern, r);
  }

  lemma NoMatchHere(t: string, u: string, pattern: string, j: nat)
    requires j < |t| && j < |pattern| <= |t + u| && t[j] != pattern[j]
    ensures (t + u)[..|pattern|] != pattern
  {
    assert (t + u)[..|pattern|][j] == t[j];
  }

  lemma PassOver(c: char, s: string, pattern: string, r: string)
    requires pattern != [] && (|[c] + s| >= |pattern| ==> ([c] + s)[..|pattern|] != pattern)
    requires |[c] + s| >= |pattern|
    ensures ReplaceAll([c] + s, pattern, r) == [c] + ReplaceAll(s, pattern, r)
  {
    assert ([c] + s)[1..] == s;
  }

  lemma MatchEntity(pattern: string, u: string, r: string)
    requires pattern != []
    ensures ReplaceAll(pattern + u, pattern, r) == r + ReplaceAll(u, pattern, r)
  {
    assert (pattern + u)[..|pattern|] == pattern && (pattern + u)[|pattern|..] == u;
  }

  /** Where two entities first differ. */
  function Differ(c: char, d: char): nat {
    if (c == '&' && d == '\'') || (c == '\'' && d == '&') then 2 else 1
  }

  lemma EntitiesDiffer(c: char, d: char)
    requires c in SPECIAL && d in SPECIAL && c != d
    ensures Differ(c, d) < |Entity(c)| && Differ(c, d) < |Entity(d)|
        && Entity(c)[Differ(c, d)] != Entity(d)[Differ(c, d)]
    ensures Entity(c)[0] == '&' && forall i | 1 <= i < |Entity(c)| :: Entity(c)[i] != '&'
  {
  }

  /** Decoding one entity undoes its escaping and touches no other, as long as the ampersand's own
      escaping is undone last. */
  lemma {:induction false} UnescapeOne(s: string, c: char, escaped: set<char>)
    requires c in escaped && escaped <= SPECIAL && (c != '&' ==> '&' in escaped)
    ensures ReplaceAll(Escape(s, escaped), Entity(c), [c]) == Escape(s, escaped - {c})
    decreases |s|
  {
    EntitiesDiffer(c, if c == '&' then '<' else '&');
    if s != [] {
      var head := if s[0] in escaped then Entity(s[0]) else [s[0]];
      var tail := Escape(s[1..], escaped);
      UnescapeOne(s[1..], c, escaped);
      if s[0] == c {
        MatchEntity(Entity(c), tail, [c]);
      } else if s[0] in escaped {
        EntitiesDiffer(s[0], c);
        SkipEntity(head, tail, Entity(c), [c], Differ(s[0], c));
      } else {
        SkipToken(head, tail, Entity(c), [c]);
      }
    }
  }

  /** Every string survives encoding and decoding, markup, quotes and entity look-alikes included. */
  lemma RoundTrip(s: string)
    ensures Decode(Encode(s)) == s
  {
    var four := SPECIAL - {'<'};
    var three := four - {'>'};
    var two := three - {'\"'};
    var one := two - {'\''};
    EncodeEscapes(s);
    UnescapeOne(s, '<', SPECIAL);
    UnescapeOne(s, '>', four);
    UnescapeOne(s, '\"', three);
    UnescapeOne(s, '\'', two);
    UnescapeOne(s, '&', one);
    assert one - {'&'} == {};
    EscapeNothing(s);
  }

  /** An encoded key holds no markup or quotes, so a reader finds where it ends. */
  lemma EncodedHasNoMarkup(s: string)
    ensures forall c | c in Encode(s) :: c !in SPECIAL - {'&'}
  {
    EncodeEscapes(s);
    EscapedHasNoMarkup(s);
  }

  lemma {:induction false} EscapedHasNoMarkup(s: string)
    ensures forall c | c in Escape(s, SPECIAL) :: c !in SPECIAL - {'&'}
  {
    if s != [] {
      EscapedHasNoMarkup(s[1..]);
      var head := if s[0] in SPECIAL then Entity(s[0]) else [s[0]];
      forall c | c in head ensures c !in SPECIAL - {'&'} {
        if c in SPECIAL - {'&'} && s[0] in SPECIAL && c != s[0] { EntityOfAnother(c, s[0]); }
      }
      assert Escape(s, SPECIAL) == head + Escape(s[1..], SPECIAL);
    }
  }

  /** Undoing the ampersand first, or escaping it last, would not round-trip. */
  function DecodeAmpersandFirst(s: string): string {
    Decode(ReplaceAll(s, "&amp;", "&"))
  }

  lemma {:induction false} PlainText(s: string)
    requires forall i | 0 <= i < |s| :: s[i] !in SPECIAL
    ensures Escape(s, SPECIAL) == s
  {
    if s != [] {
      PlainText(s[1..]);
    }
  }

  /** An ampersand in front of plain text: encoded once, and decoded again by the wrong order. */
  lemma AmpersandFirstDecodesTwice(t: string)
    requires forall i | 0 <= i < |t| :: t[i] !in SPECIAL
    ensures DecodeAmpersandFirst(Encode(['&'] + t)) == Decode(['&'] + t)
  {
    EncodeEscapes(['&'] + t);
    PlainText(t);
    assert (['&'] + t)[1..] == t;
    MatchEntity("&amp;", t, "&");
    SkipToken(t, [], "&amp;", "&");
    assert t + [] == t;
  }

  lemma {:induction false} TooShort(s: string, pattern: string, r: string)
    requires |s| < |pattern|
    ensures ReplaceAll(s, pattern, r) == s
  {
  }

  lemma DecodeLookAlike(s: string)
    requires s == Entity('<')
    ensures Decode(s) == ['<']
  {
    var decoded := ['<'];
    MatchEntity(s, [], decoded);
    assert s + [] == s && decoded + [] == decoded;
    TooShort([], "&lt;", "<");
    TooShort(decoded, "&gt;", ">");
    TooShort(decoded, "&quot;", "\"");
    TooShort(decoded, "&apos;", "'");
    TooShort(decoded, "&amp;", "&");
  }

  /** The text `&lt;` would come back as `<`. */
  lemma {:induction false} OrderMatters(text: string)
    requires text == Entity('<')
    ensures DecodeAmpersandFirst(Encode(text)) == ['<']
  {
    var t := text[1..];
    assert text == ['&'] + t;
    assert forall i | 0 <= i < |t| :: t[i] == 'l' || t[i] == 't' || t[i] == ';';
    AmpersandFirstDecodesTwice(t);
    DecodeLookAlike(text);
  }

  // ---- bulk deletion ----

  const BATCH_SIZE: nat := 1000

  /** The store's answer to one chunk: the keys it reports as not deleted, or no answer at all. */
  datatype Response = Reported(errors: seq<string>) | Threw

  /** The i-th key was in a chunk that was sent, answered, and did not report it. */
  predicate Confirmed(keys: seq<string>, responses: seq<Response>, i: nat)
    requires i < |keys| <= |responses| * BATCH_SIZE
  {
    && (forall c | 0 <= c <= i / BATCH_SIZE :: responses[c].Reported?)
    && keys[i] !in responses[i / BATCH_SIZE].errors
  }

  /** The chunk loop. It throws exactly when the first chunk gets no answer; otherwise every key whose
      deletion was not confirmed is listed, and nothing is listed without a reason. */
  method DeleteMany(keys: seq<string>, responses: seq<Response>) returns (failedKeys: Option<seq<string>>)
    requires |keys| <= |responses| * BATCH_SIZE
    ensures failedKeys.None? <==> keys != [] && responses[0].Threw?
    ensures failedKeys.Some? ==>
              forall i | 0 <= i < |keys| && keys[i] !in failedKeys.value :: Confirmed(keys, responses, i)
    ensures failedKeys.Some? ==>
              forall k | k in failedKeys.value ::
                || (exists i :: 0 <= i < |keys| && keys[i] == k && !Confirmed(keys, responses, i))
                || (exists c :: 0 <= c < |responses| && responses[c].Reported? && k in responses[c].errors)
  {
    var failed: seq<string> := [];
    var chunk := 0;
    while chunk * BATCH_SIZE < |keys|
      invariant 0 <= chunk <= |responses|
      invariant forall c | 0 <= c < chunk :: responses[c].Reported?
      invariant forall i | 0 <= i < |keys| && i / BATCH_SIZE < chunk && keys[i] !in failed ::
          Confirmed(keys, responses, i)
      invariant forall k | k in failed ::
                  exists c :: 0 <= c < chunk && responses[c].Reported? && k in responses[c].errors
      decreases |responses| - chunk
    {
      if responses[chunk].Threw? {
        if chunk == 0 { return None; }
        var rest := keys[chunk * BATCH_SIZE..];
        forall i | chunk * BATCH_SIZE <= i < |keys| ensures keys[i] in rest && !Confirmed(keys, responses, i) {
          assert rest[i - chunk * BATCH_SIZE] == keys[i];
          assert !responses[chunk].Reported?;
        }
        return Some(failed + rest);
      }
      failed := failed + responses[chunk].errors;
      chunk := chunk + 1;
    }
    return Some(failed);
  }
}
