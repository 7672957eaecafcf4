/** The commands an assistant reply may carry after its text, separated by
    `||`: `YOUTUBE::<id>` attaches a video and `SIGNUP` a sign-up button.
    Any other command is ignored. */
module Directives {
  import opened Wrappers
  import opened Text
  import opened Transcript

  const Separator := "||"
  const YoutubePrefix := "YOUTUBE::"
  const SignUpCommand := "SIGNUP"

  /** In a command that starts with `YOUTUBE::`, the first `::` is the one
      of the prefix. */
  lemma FirstColonsOfYoutubeCommand(command: string)
    requires StartsWith(command, YoutubePrefix)
    ensures IndexOf(command, "::", 0) == Some(7)
  {
    assert OccursAt(command, "::", 7) by {
      assert command[7..9] == command[..9][7..9];
    }
    forall j: nat | j < 7
      ensures !OccursAt(command, "::", j)
    {
      assert command[j] == YoutubePrefix[j] by {
        assert command[j] == command[..9][j];
      }
    }
  }

  lemma SecondPartOfYoutubeCommand(command: string)
    requires StartsWith(command, YoutubePrefix)
    ensures |Split(command, "::")| > 1
    ensures Split(command, "::")[1] == Split(command[9..], "::")[0]
  {
    FirstColonsOfYoutubeCommand(command);
  }

  /** `trimmedPart.split('::')[1]`: the text after the prefix up to the
      next `::`, or to the end. */
  function YoutubeIdOf(command: string): (id: string)
    requires StartsWith(command, YoutubePrefix)
    ensures id <= command[|YoutubePrefix|..]
    ensures !Contains(id, "::")
    ensures |YoutubePrefix| + |id| < |command| ==> OccursAt(command[|YoutubePrefix|..], "::", |id|)
    ensures |YoutubePrefix| + |id| < |command| ==> !Contains(id + ":", "::")
  {
    SecondPartOfYoutubeCommand(command);
    IdEndsAtFirstColons(command[|YoutubePrefix|..]);
    Split(command, "::")[1]
  }

  /** The first part of a split on `::` that is followed by `::` has no
      `::` even with the next `:` added. */
  lemma IdEndsAtFirstColons(tail: string)
    ensures var parts := Split(tail, "::");
      |parts[0]| < |tail| ==> !Contains(parts[0] + ":", "::")
  {
    var parts := Split(tail, "::");
    if |parts| == 1 {
      assert Join(parts, "::") == parts[0];
    } else {
      assert "::"[..1] == ":";
      assert SeparatorsLeftmost(parts, "::");
    }
  }

  /** With no `:` after the prefix, the whole rest is the video id. */
  lemma YoutubeIdWithoutColons(command: string)
    requires StartsWith(command, YoutubePrefix) && ':' !in command[|YoutubePrefix|..]
    ensures YoutubeIdOf(command) == command[|YoutubePrefix|..]
  {
    var tail, id := command[|YoutubePrefix|..], YoutubeIdOf(command);
    NotAtAnyIndex(tail, "::", |id|);
    assert id == tail[..|id|] == tail;
  }

  /** The commands found so far. */
  datatype Commands = Commands(youtubeId: Option<string>, showSignUpButton: bool)

  predicate IsYoutubeCommand(part: string) {
    StartsWith(Trim(part), YoutubePrefix)
  }

  predicate IsSignUpCommand(part: string) {
    Trim(part) == SignUpCommand
  }

  predicate HasSignUpCommand(parts: seq<string>) {
    exists k :: 0 <= k < |parts| && IsSignUpCommand(parts[k])
  }

  /** One iteration of the loop over the parts after the first. */
  function ApplyCommand(found: Commands, part: string): (r: Commands)
    ensures r.showSignUpButton == (found.showSignUpButton || IsSignUpCommand(part))
    ensures IsYoutubeCommand(part) ==> r.youtubeId == Some(YoutubeIdOf(Trim(part)))
    ensures !IsYoutubeCommand(part) ==> r.youtubeId == found.youtubeId
  {
    var command := Trim(part);
    if StartsWith(command, YoutubePrefix) then found.(youtubeId := Some(YoutubeIdOf(command)))
    else if command == SignUpCommand then found.(showSignUpButton := true)
    else found
  }

  /** The loop over the command parts, in order. */
  function ScanCommands(parts: seq<string>): (r: Commands)
    ensures parts == [] ==> r == Commands(None, false)
    ensures r.youtubeId.Some? ==>
      exists k :: 0 <= k < |parts| && IsYoutubeCommand(parts[k]) && r.youtubeId.value == YoutubeIdOf(Trim(parts[k]))
  {
    if parts == [] then Commands(None, false)
    else
      var init := parts[..|parts| - 1];
      var found := ScanCommands(init);
      VideoFromSomePart(parts, found);
      ApplyCommand(found, parts[|parts| - 1])
  }

  /** A video found in the earlier parts, or set by the last one, comes
      from some part. */
  lemma VideoFromSomePart(parts: seq<string>, found: Commands)
    requires parts != []
    requires var init := parts[..|parts| - 1];
      found.youtubeId.Some? ==>
        exists k :: 0 <= k < |init| && IsYoutubeCommand(init[k]) && found.youtubeId.value == YoutubeIdOf(Trim(init[k]))
    ensures var r := ApplyCommand(found, parts[|parts| - 1]);
      r.youtubeId.Some? ==>
        exists k :: 0 <= k < |parts| && IsYoutubeCommand(parts[k]) && r.youtubeId.value == YoutubeIdOf(Trim(parts[k]))
  {
    var init, last := parts[..|parts| - 1], parts[|parts| - 1];
    if !IsYoutubeCommand(last) && found.youtubeId.Some? {
      var k :| 0 <= k < |init| && IsYoutubeCommand(init[k]) && found.youtubeId.value == YoutubeIdOf(Trim(init[k]));
      assert parts[k] == init[k];
    }
  }

  lemma ScanSignUpStep(parts: seq<string>)
    requires parts != []
    ensures ScanCommands(parts).showSignUpButton
         == (ScanCommands(parts[..|parts| - 1]).showSignUpButton || IsSignUpCommand(parts[|parts| - 1]))
  {
  }

  lemma HasSignUpStep(parts: seq<string>)
    requires parts != []
    ensures HasSignUpCommand(parts) == (HasSignUpCommand(parts[..|parts| - 1]) || IsSignUpCommand(parts[|parts| - 1]))
  {
    if HasSignUpCommand(parts[..|parts| - 1]) {
      SignUpInInit(parts);
    }
    if HasSignUpCommand(parts) {
      SignUpSomewhere(parts);
    }
  }

  lemma SignUpInInit(parts: seq<string>)
    requires parts != [] && HasSignUpCommand(parts[..|parts| - 1])
    ensures HasSignUpCommand(parts)
  {
    var init := parts[..|parts| - 1];
    var k :| 0 <= k < |init| && IsSignUpCommand(init[k]);
    assert parts[k] == init[k];
  }

  lemma SignUpSomewhere(parts: seq<string>)
    requires parts != [] && HasSignUpCommand(parts)
    ensures HasSignUpCommand(parts[..|parts| - 1]) || IsSignUpCommand(parts[|parts| - 1])
  {
    var init := parts[..|parts| - 1];
    var k :| 0 <= k < |parts| && IsSignUpCommand(parts[k]);
    if k < |init| {
      assert init[k] == parts[k];
    }
  }

  /** The sign-up button is requested exactly when some part, trimmed, is
      `SIGNUP`. */
  lemma {:induction false} SignUpIffCommandPresent(parts: seq<string>)
    ensures ScanCommands(parts).showSignUpButton <==> HasSignUpCommand(parts)
  {
    if parts != [] {
      SignUpIffCommandPresent(parts[..|parts| - 1]);
      ScanSignUpStep(parts);
      HasSignUpStep(parts);
    }
  }

  /** Without a `YOUTUBE::` part no video is attached. */
  lemma {:induction false} NoVideoWithoutCommand(parts: seq<string>)
    requires forall k :: 0 <= k < |parts| ==> !IsYoutubeCommand(parts[k])
    ensures ScanCommands(parts).youtubeId == None
  {
    if parts != [] {
      NoVideoWithoutCommand(parts[..|parts| - 1]);
    }
  }

  /** The last `YOUTUBE::` part decides the video. */
  lemma {:induction false} LastVideoCommandWins(parts: seq<string>, k: nat)
    requires k < |parts| && IsYoutubeCommand(parts[k])
    requires forall m :: k < m < |parts| ==> !IsYoutubeCommand(parts[m])
    ensures ScanCommands(parts).youtubeId == Some(YoutubeIdOf(Trim(parts[k])))
  {
    var init := parts[..|parts| - 1];
    if k < |parts| - 1 {
      LastVideoCommandWins(init, k);
    }
  }

  /** A reply after the stream: its display text and its commands. */
  datatype Finalized = Finalized(text: string, commands: Commands)

  /** The parse after streaming: `None` when the reply has no `||`,
      otherwise the first part trimmed and the commands of the others. */
  function ParseReply(reply: string): (r: Option<Finalized>)
    ensures r.None? <==> !Contains(reply, Separator)
  {
    var parts := Split(reply, Separator);
    if |parts| > 1 then Some(Finalized(Trim(parts[0]), ScanCommands(parts[1..]))) else None
  }

  /** With a `||` in the reply, the display text is what precedes the
      first `||`, trimmed. */
  lemma ParseReplyText(reply: string, i: nat)
    requires OccursAt(reply, Separator, i)
    requires forall j: nat :: j < i ==> !OccursAt(reply, Separator, j)
    ensures ParseReply(reply).Some? && ParseReply(reply).value.text == Trim(reply[..i])
  {
    assert IndexOf(reply, Separator, 0) == Some(i);
  }

  /** The commands are those of the parts after the first `||`. */
  lemma ParseReplyCommands(reply: string, i: nat)
    requires OccursAt(reply, Separator, i)
    requires forall j: nat :: j < i ==> !OccursAt(reply, Separator, j)
    ensures ParseReply(reply).Some?
    ensures ParseReply(reply).value.commands == ScanCommands(Split(reply[i + 2..], Separator))
  {
    assert IndexOf(reply, Separator, 0) == Some(i);
  }

  /** The whole parse once the first `||` is located. */
  lemma ParseReplyAt(reply: string, i: nat)
    requires OccursAt(reply, Separator, i)
    requires forall j: nat :: j < i ==> !OccursAt(reply, Separator, j)
    ensures ParseReply(reply)
         == Some(Finalized(Trim(reply[..i]), ScanCommands(Split(reply[i + 2..], Separator))))
  {
    ParseReplyText(reply, i);
    ParseReplyCommands(reply, i);
  }

  /** A reply whose text has no `|` splits at the `||` right after it. */
  lemma ParseReplyAfterText(text: string, rest: string)
    requires '|' !in text
    ensures ParseReply(text + Separator + rest)
         == Some(Finalized(Trim(text), ScanCommands(Split(rest, Separator))))
  {
    var reply := text + Separator + rest;
    assert reply[..|text|] == text;
    assert reply[|text|..|text| + 2] == Separator;
    assert reply[|text| + 2..] == rest;
    FirstOccurrenceAt(reply, Separator, |text|);
    ParseReplyAt(reply, |text|);
  }

  /** The wire example `Texto||YOUTUBE::abc123||SIGNUP`: text, a video
      and the sign-up button. */
  lemma ParseReplyExample(text: string, rest: string)
    requires text == "Texto" && rest == "YOUTUBE::abc123||SIGNUP"
    ensures ParseReply(text + Separator + rest)
         == Some(Finalized("Texto", Commands(Some("abc123"), true)))
  {
    ExampleText(text);
    ParseReplyAfterText(text, rest);
    ExampleParts(rest);
    ExampleCommands(["YOUTUBE::abc123", SignUpCommand]);
  }

  lemma ExampleText(text: string)
    requires text == "Texto"
    ensures '|' !in text && Trim(text) == "Texto"
  {
    TrimKeepsUnpaddedText(text);
  }

  lemma ExampleParts(rest: string)
    requires rest == "YOUTUBE::abc123||SIGNUP"
    ensures Split(rest, Separator) == ["YOUTUBE::abc123", SignUpCommand]
  {
    assert rest[..15] == "YOUTUBE::abc123";
    assert rest[15] == '|' && rest[16] == '|';
    assert OccursAt(rest, Separator, 15);
    FirstOccurrenceAt(rest, Separator, 15);
    assert rest[17..] == SignUpCommand;
    NoOccurrence(SignUpCommand, Separator);
  }

  lemma ExampleCommands(parts: seq<string>)
    requires parts == ["YOUTUBE::abc123", SignUpCommand]
    ensures ScanCommands(parts) == Commands(Some("abc123"), true)
  {
    TrimKeepsUnpaddedText(parts[0]);
    TrimKeepsUnpaddedText(parts[1]);
    assert IsYoutubeCommand(parts[0]) && !IsYoutubeCommand(parts[1]);
    LastVideoCommandWins(parts, 0);
    ExampleVideoId(parts[0]);
    assert IsSignUpCommand(parts[1]);
    SignUpIffCommandPresent(parts);
  }

  lemma ExampleVideoId(video: string)
    requires video == "YOUTUBE::abc123"
    ensures YoutubeIdOf(video) == "abc123"
  {
    assert video[9..] == "abc123";
    YoutubeIdWithoutColons(video);
  }

  /** The update of the last bubble after streaming: with a `||` its text
      becomes the display text and the video and sign-up fields are set;
      without one the bubble is left as streamed. */
  function FinalizeReply(m: Message): (r: Message)
    ensures r.sender == m.sender
    ensures !Contains(m.text, Separator) ==> r == m
    ensures Contains(m.text, Separator) ==>
      var f := ParseReply(m.text).value;
      r.text == f.text && r.youtubeId == f.commands.youtubeId
      && r.showSignUpButton == Some(f.commands.showSignUpButton)
  {
    match ParseReply(m.text)
    case None => m
    case Some(f) =>
      m.(text := f.text, youtubeId := f.commands.youtubeId, showSignUpButton := Some(f.commands.showSignUpButton))
  }

  /** The wire example once the stream is over: the bubble shows `Texto`,
      the video `abc123` and the sign-up button. */
  lemma FinalizeReplyExample(reply: string)
    requires reply == "Texto||YOUTUBE::abc123||SIGNUP"
    ensures FinalizeReply(AssistantMessage(reply)) == Message(Assistant, "Texto", Some("abc123"), Some(true))
  {
    assert reply == "Texto" + Separator + "YOUTUBE::abc123||SIGNUP";
    ParseReplyExample("Texto", "YOUTUBE::abc123||SIGNUP");
  }
}
