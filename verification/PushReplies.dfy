/** Which push replies go to commands: what the name test of async.c comes to. */
module PushReplies {
  import opened Options
  import opened Resp
  import opened AsyncContext

  function Lowered(s: string): string {
    seq(|s|, i requires 0 <= i < |s| => Lower(s[i]))
  }

  lemma Letters(s: string, word: string)
    requires Lowered(s) <= word
    ensures |s| <= |word| && forall i | 0 <= i < |s| :: Lower(s[i]) == word[i]
  {
    forall i | 0 <= i < |s|
      ensures Lower(s[i]) == word[i]
    {
      assert Lowered(s)[i] == word[i];
    }
  }

  /** The comparison stops at the end of the name that came over the wire, so a beginning of the word is enough. */
  lemma NamesABeginning(s: string, word: string)
    requires '\0' !in s
    ensures Names(s, word) <==> Lowered(s) <= word
  {
    if Names(s, word) {
      assert |s| <= |word|;
      forall i | 0 <= i < |s|
        ensures Lowered(s)[i] == word[i]
      {
      }
    } else if Lowered(s) <= word {
      Letters(s, word);
    }
  }

  lemma BehindP(name: string, word: string)
    requires name != "" && Lower(name[0]) == 'p'
    ensures Lowered(name[1..]) <= word <==> Lowered(name) <= "p" + word
  {
    var rest := Lowered(name[1..]);
    assert Lowered(name) == "p" + rest;
    if Lowered(name) <= "p" + word {
      assert rest == Lowered(name)[1..] && Lowered(name) == ("p" + word)[..|name|];
      assert ("p" + word)[..|name|][1..] == word[..|name| - 1];
    }
  }

  lemma OtherLetter(name: string, word: string)
    requires name != "" && word != "" && Lower(name[0]) != word[0]
    ensures !(Lowered(name) <= word)
  {
    assert Lowered(name)[0] == Lower(name[0]);
  }

  /** An aggregate whose first element is the string `name`. */
  ghost predicate Called(r: Reply, name: string) {
    r.Agg? && r.elems != [] && r.elems[0] == Text(STRING, name)
  }

  predicate Begins(name: string) {
    name <= "subscribe" || name <= "message" || name <= "psubscribe" || name <= "pmessage"
  }

  /**
    A push is handed to a command exactly if its name has at least seven letters and is, whatever the
    case of the letters, a beginning of one of four words.
  */
  lemma SubscribeReplies(r: Reply, name: string)
    requires Called(r, name) && '\0' !in name
    ensures IsSubscribeReply(r) <==> |name| >= 7 && Begins(Lowered(name))
  {
    if |name| >= 7 {
      var p := Lower(name[0]) == 'p';
      NamesABeginning(name, "subscribe");
      NamesABeginning(name, "message");
      NamesABeginning(name[1..], "subscribe");
      NamesABeginning(name[1..], "message");
      if p {
        BehindP(name, "subscribe");
        BehindP(name, "message");
        assert "p" + "subscribe" == "psubscribe" && "p" + "message" == "pmessage";
        OtherLetter(name, "subscribe");
        OtherLetter(name, "message");
      } else {
        OtherLetter(name, "psubscribe");
        OtherLetter(name, "pmessage");
      }
    }
  }

  /** The confirmation of an unsubscription is none of them: it goes to the push callback, not to the command. */
  lemma UnsubscribeIsSpontaneous(r: Reply)
    requires r.Agg? && r.akind == PUSH && (Called(r, "unsubscribe") || Called(r, "punsubscribe"))
    ensures IsSpontaneous(r)
  {
    var name := r.elems[0].str;
    SubscribeReplies(r, name);
    assert Lowered("unsubscribe")[0] == 'u';
    assert Lowered("punsubscribe")[0] == 'p' && Lowered("punsubscribe")[1] == 'u';
  }
}
