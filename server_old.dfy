/**
 * The earlier protocol (`src/server_old.py`): `show` returns the whole of
 * `android_data.txt`; any other message is numbered, appended to that file
 * as one line, and acknowledged.
 */
module ServerOld {
  import opened Common
  import opened Text

  const ShowCommand := "show"
  const FileEmpty := "Файл пуст"
  const FileMissing := "Файл не существует"

  /** The line (without its newline) logged for the `n`-th packet. */
  function PacketLine(n: nat, message: string): string {
    "Пакет #" + NatToString(n) + ": " + message
  }

  /** The acknowledgement of the `n`-th packet. */
  function HelloReply(n: nat): string {
    "hello from server (пакет #" + NatToString(n) + ")"
  }

  /** The lines logged for the packets `messages`, numbered from 1. */
  function PacketLines(messages: seq<string>): (ls: seq<string>)
    ensures |ls| == |messages|
  {
    seq(|messages|, i requires 0 <= i < |messages| => PacketLine(i + 1, messages[i]))
  }

  /** What the server appends to the file for the packets `messages`. */
  function PacketLog(messages: seq<string>): string {
    Unlines(PacketLines(messages))
  }

  /** The file after `messages` were logged onto a file that was `initial` when the server started (`None`: no file). */
  function Logged(initial: Option<string>, messages: seq<string>): Option<string> {
    if messages == [] then initial else Some(initial.GetOr("") + PacketLog(messages))
  }

  /**
   * The reply to `show`: the file's contents as text mode reads them back
   * (line endings translated), or a notice when the file is empty or missing.
   * The reply is never empty and never holds a carriage return.
   */
  function ShowReply(file: Option<string>): (reply: string)
    ensures reply != [] && '\r' !in reply
  {
    match file
    case None => FileMissing
    case Some(contents) => if contents != "" then UniversalNewlines(contents) else FileEmpty
  }

  /** Logging one more packet appends exactly its numbered line to the file. */
  lemma LoggedAppend(initial: Option<string>, messages: seq<string>, message: string)
    ensures Logged(initial, messages + [message])
         == Some(Logged(initial, messages).GetOr("") + PacketLine(|messages| + 1, message) + "\n")
  {
    var ls, line := PacketLines(messages), PacketLine(|messages| + 1, message);
    assert PacketLines(messages + [message]) == ls + [line];
    UnlinesAppend(ls, [line]);
    assert [line][1..] == [];
    assert PacketLog(messages + [message]) == PacketLog(messages) + line + "\n";
    var before := initial.GetOr("");
    if messages == [] {
      assert before + ("" + line + "\n") == before + line + "\n";
    } else {
      assert before + PacketLog(messages) + line + "\n" == before + (PacketLog(messages) + line + "\n");
    }
  }

  /** The packet number and message a logged line carries. */
  function PacketOf(line: string): Option<(nat, string)> {
    if |line| >= 7 && line[..7] == "Пакет #" then
      var rest := line[7..];
      var k := LeadingDigits(rest);
      if k + 2 <= |rest| && rest[k..k + 2] == ": " then
        match ParseNat(rest[..k])
        case Some(n) => Some((n, rest[k + 2..]))
        case None => None
      else None
    else None
  }

  /** A logged line reads back as the packet number and the message it was written from. */
  lemma PacketLineRoundTrip(n: nat, message: string)
    ensures PacketOf(PacketLine(n, message)) == Some((n, message))
  {
    var d := NatToString(n);
    var rest := PacketLine(n, message)[7..];
    assert rest == d + (": " + message);
    DigitsThenText(d, ": " + message);
    assert rest[..|d|] == d;
    assert rest[|d|..|d| + 2] == ": ";
    assert rest[|d| + 2..] == message;
    ParseNatToString(n);
  }

  /**
   * When no message contains a line break, the log reads back line by line
   * as one line per packet, numbered 1, 2, ... in arrival order, each with
   * its message.
   */
  lemma {:induction false} PacketLogReadsBack(messages: seq<string>)
    requires forall i :: 0 <= i < |messages| ==> '\n' !in messages[i]
    ensures |SplitLines(PacketLog(messages))| == |messages|
    ensures forall i :: 0 <= i < |messages| ==> PacketOf(SplitLines(PacketLog(messages))[i]) == Some((i + 1, messages[i]))
  {
    var ls := PacketLines(messages);
    forall i | 0 <= i < |ls| ensures '\n' !in ls[i] {
      assert forall c :: c in NatToString(i + 1) ==> IsDigit(c);
      assert ls[i] == "Пакет #" + NatToString(i + 1) + ": " + messages[i];
    }
    SplitUnlines(ls);
    forall i | 0 <= i < |messages| ensures PacketOf(ls[i]) == Some((i + 1, messages[i])) {
      PacketLineRoundTrip(i + 1, messages[i]);
    }
  }

  /** No logged line holds a carriage return unless its message does. */
  lemma PacketLogAvoidsCarriageReturn(messages: seq<string>)
    requires forall i :: 0 <= i < |messages| ==> '\r' !in messages[i]
    ensures '\r' !in PacketLog(messages)
  {
    var ls := PacketLines(messages);
    forall i | 0 <= i < |ls| ensures '\r' !in ls[i] {
      assert forall c :: c in NatToString(i + 1) ==> IsDigit(c);
      assert ls[i] == "Пакет #" + NatToString(i + 1) + ": " + messages[i];
    }
    UnlinesAvoids(ls, '\r');
  }

  /**
   * `show` on a server that started without a file: the notice before any
   * packet, and afterwards the whole log with its line endings translated,
   * which is the log exactly as written when no message holds a carriage return.
   */
  lemma ShowAfterPackets(messages: seq<string>)
    ensures messages == [] ==> ShowReply(Logged(None, messages)) == FileMissing
    ensures messages != [] ==> ShowReply(Logged(None, messages)) == UniversalNewlines(PacketLog(messages))
    ensures messages != [] && (forall i :: 0 <= i < |messages| ==> '\r' !in messages[i]) ==>
      ShowReply(Logged(None, messages)) == PacketLog(messages)
  {
    if messages != [] {
      assert PacketLog(messages) != [];
      assert "" + PacketLog(messages) == PacketLog(messages);
    }
    if messages != [] && (forall i :: 0 <= i < |messages| ==> '\r' !in messages[i]) {
      PacketLogAvoidsCarriageReturn(messages);
      UniversalNewlinesKeeps(PacketLog(messages));
    }
  }

  /**
   * A packet holding a lone carriage return is shown with a newline in its
   * place, so `show` does not return the file as it was written.
   */
  lemma ShowTranslatesCarriageReturn(a: string, b: string)
    requires '\r' !in a && '\r' !in b && |b| > 0 && b[0] != '\n'
    ensures ShowReply(Logged(None, [a + "\r" + b])) == PacketLine(1, a + "\n" + b) + "\n"
    ensures ShowReply(Logged(None, [a + "\r" + b])) != PacketLog([a + "\r" + b])
  {
    var m := a + "\r" + b;
    var head := "Пакет #" + NatToString(1) + ": " + a;
    assert forall c :: c in NatToString(1) ==> IsDigit(c);
    assert '\r' !in head;
    assert PacketLines([m]) == [PacketLine(1, m)];
    assert [PacketLine(1, m)][1..] == [];
    assert PacketLog([m]) == PacketLine(1, m) + "\n" + Unlines([]);
    var text := "\r" + b + "\n";
    assert PacketLog([m]) == head + text;
    ShowAfterPackets([m]);
    UniversalNewlinesAfter(head, text);
    assert text[1] == b[0] && text[1..] == b + "\n";
    assert '\r' !in b + "\n";
    UniversalNewlinesKeeps(b + "\n");
    assert UniversalNewlines(text) == "\n" + (b + "\n");
    assert head + ("\n" + (b + "\n")) == PacketLine(1, a + "\n" + b) + "\n";
    assert head + text != head + ("\n" + (b + "\n")) by {
      assert (head + text)[|head|] == '\r';
    }
  }

  /** The module-level state of the script: the packet counter and the log file. */
  class PacketServer {
    var counter: nat
    var file: Option<string>
    /** The file as it was when the server started. */
    ghost var initial: Option<string>
    /** The non-`show` messages received so far. */
    ghost var packets: seq<string>

    /** The counter counts the packets, and the file is the starting file with their lines appended. */
    ghost predicate Valid()
      reads this
    {
      counter == |packets| && file == Logged(initial, packets)
    }

    /** The counter starts at zero; the file is whatever an earlier run left (`None`: no file). */
    constructor (existing: Option<string>)
      ensures Valid()
      ensures counter == 0 && file == existing && initial == existing && packets == []
    {
      counter := 0;
      file := existing;
      initial := existing;
      packets := [];
    }

    /** One iteration of the receive loop. */
    method Handle(message: string) returns (reply: string)
      requires Valid()
      modifies this
      ensures Valid() && initial == old(initial)
      ensures message == ShowCommand ==>
        && reply == ShowReply(old(file))
        && counter == old(counter) && file == old(file) && packets == old(packets)
      ensures message != ShowCommand ==>
        && counter == old(counter) + 1
        && file == Some(old(file).GetOr("") + PacketLine(counter, message) + "\n")
        && packets == old(packets) + [message]
        && reply == HelloReply(counter)
    {
      if message == ShowCommand {
        reply := ShowReply(file);
      } else {
        LoggedAppend(initial, packets, message);
        counter := counter + 1;
        file := Some(file.GetOr("") + PacketLine(counter, message) + "\n");
        packets := packets + [message];
        reply := HelloReply(counter);
      }
    }
  }
}
