/**
 * The messages page: a fixed inbox, a search box that keeps the messages whose
 * sender or subject contains the query (ignoring case), a colour per sender type,
 * and the message selected by a click, looked up again by its id.
 */
module Messages {
  import opened Wrappers
  import Text
  import Seqs

  datatype Message = Message(
    id: int,
    sender: string,
    initials: string,
    subject: string,
    preview: string,
    unread: bool,
    kind: string)

  const Inbox: seq<Message> := [
    Message(1, "Ahmad Rizki", "AR", "Question about Math Assignment",
            "Hi teacher, I have a question about the algebra problem...", true, "student"),
    Message(2, "Siti Nurhaliza", "SN", "Request for Extra Class",
            "Could we schedule an additional physics session?", true, "student"),
    Message(3, "Dr. Budi Santoso", "BS", "Curriculum Update Meeting",
            "Please join the meeting tomorrow at 2 PM...", false, "colleague"),
    Message(4, "Parent - Mrs. Dewi", "MD", "Student Progress Inquiry",
            "I would like to discuss my child's progress...", false, "parent")
  ]

  predicate MessageMatches(searchQuery: string, m: Message) {
    Text.ContainsIgnoreCase(m.sender, searchQuery) || Text.ContainsIgnoreCase(m.subject, searchQuery)
  }

  /** The messages of a list that a query keeps, in their original order. */
  function FilterMessages(messages: seq<Message>, searchQuery: string): seq<Message> {
    Seqs.Filter(messages, m => MessageMatches(searchQuery, m))
  }

  /** `filteredMessages` for the current query. */
  function FilteredMessages(searchQuery: string): seq<Message> {
    FilterMessages(Inbox, searchQuery)
  }

  /** A message is kept exactly when it is in the list and its sender or subject contains the query. */
  lemma FilterMessagesMembership(messages: seq<Message>, searchQuery: string, m: Message)
    ensures m in FilterMessages(messages, searchQuery) <==>
      m in messages && (Text.ContainsIgnoreCase(m.sender, searchQuery) || Text.ContainsIgnoreCase(m.subject, searchQuery))
  {
    Seqs.FilterMembership(messages, m => MessageMatches(searchQuery, m), m);
  }

  /** An empty query keeps every message in its original order. */
  lemma EmptyQueryKeepsAll(messages: seq<Message>)
    ensures FilterMessages(messages, "") == messages
  {
    forall i | 0 <= i < |messages| ensures MessageMatches("", messages[i]) {
      Text.ContainsEmpty(messages[i].sender);
    }
    Seqs.FilterAll(messages, m => MessageMatches("", m));
  }

  /** The preview text plays no part in the search. */
  lemma PreviewNotSearched(searchQuery: string, m: Message, preview: string)
    ensures MessageMatches(searchQuery, m.(preview := preview)) == MessageMatches(searchQuery, m)
  {
  }

  const StudentColor: string := "bg-blue-100 text-blue-800"
  const ColleagueColor: string := "bg-green-100 text-green-800"
  const ParentColor: string := "bg-purple-100 text-purple-800"
  const DefaultColor: string := "bg-gray-100 text-gray-800"

  /** `getTypeColor`. */
  function TypeColor(kind: string): string {
    match kind
    case "student" => StudentColor
    case "colleague" => ColleagueColor
    case "parent" => ParentColor
    case _ => DefaultColor
  }

  /** The three known sender types get three different badges; every other type is grey. */
  lemma TypeColorsDistinct(kind: string)
    ensures TypeColor("student") != TypeColor("colleague")
    ensures TypeColor("student") != TypeColor("parent")
    ensures TypeColor("colleague") != TypeColor("parent")
    ensures kind !in {"student", "colleague", "parent"} ==> TypeColor(kind) == DefaultColor
    ensures TypeColor(kind) == DefaultColor ==> kind !in {"student", "colleague", "parent"}
  {
  }

  /** `messages.find(m => m.id === id)`: the first message with that id. */
  function FindById(messages: seq<Message>, id: int): (r: Option<Message>)
    ensures r.Some? ==> r.value in messages && r.value.id == id
    ensures r.None? ==> forall i :: 0 <= i < |messages| ==> messages[i].id != id
    ensures r.Some? ==>
      exists k :: 0 <= k < |messages| && messages[k] == r.value && forall j :: 0 <= j < k ==> messages[j].id != id
  {
    if |messages| == 0 then None
    else if messages[0].id == id then Some(messages[0])
    else FindById(messages[1..], id)
  }

  /** Ids tell the messages apart. */
  predicate UniqueIds(messages: seq<Message>) {
    forall i, j :: 0 <= i < j < |messages| ==> messages[i].id != messages[j].id
  }

  /** With unique ids, looking a message up by its own id returns that very message. */
  lemma {:induction false} FindOwnId(messages: seq<Message>, k: nat)
    requires UniqueIds(messages) && k < |messages|
    ensures FindById(messages, messages[k].id) == Some(messages[k])
    decreases k
  {
    if k > 0 {
      assert messages[0].id != messages[k].id;
      assert messages[1..][k - 1] == messages[k];
      FindOwnId(messages[1..], k - 1);
    }
  }

  lemma InboxIdsUnique()
    ensures UniqueIds(Inbox)
    ensures forall i :: 0 <= i < |Inbox| ==> Inbox[i].id != 0
  {
  }

  /** In a list with unique ids, the id of any kept message looks up exactly that message. */
  lemma KeptMessageFoundById(messages: seq<Message>, searchQuery: string, k: nat)
    requires UniqueIds(messages) && k < |FilterMessages(messages, searchQuery)|
    ensures FindById(messages, FilterMessages(messages, searchQuery)[k].id) == Some(FilterMessages(messages, searchQuery)[k])
  {
    var m := FilterMessages(messages, searchQuery)[k];
    assert m in messages;
    var j :| 0 <= j < |messages| && messages[j] == m;
    FindOwnId(messages, j);
  }

  /** Clicking any listed message, whatever the query, selects exactly that message. */
  lemma ClickedMessageIsShown(searchQuery: string, k: nat)
    requires k < |FilteredMessages(searchQuery)|
    ensures FilteredMessages(searchQuery)[k].id != 0
    ensures FindById(Inbox, FilteredMessages(searchQuery)[k].id) == Some(FilteredMessages(searchQuery)[k])
  {
    InboxIdsUnique();
    assert FilteredMessages(searchQuery)[k] in Inbox;
    KeptMessageFoundById(Inbox, searchQuery, k);
  }

  /** The page's message list and its two state cells: the search box and the selected message's id. */
  class MessagesPage {
    const messages: seq<Message>
    var searchQuery: string
    var selectedMessage: Option<int>

    /** The list's ids tell its messages apart and none is the falsy id 0. */
    predicate Valid() {
      UniqueIds(messages) && forall i :: 0 <= i < |messages| ==> messages[i].id != 0
    }

    constructor ()
      ensures messages == Inbox && Valid()
      ensures searchQuery == "" && selectedMessage == None
    {
      messages := Inbox;
      searchQuery := "";
      selectedMessage := None;
      InboxIdsUnique();
    }

    /** The messages listed for the current query. */
    function Listed(): seq<Message>
      reads this
    {
      FilterMessages(messages, searchQuery)
    }

    /** The message shown in the reading pane; none while no id, or the falsy id 0, is selected. */
    function Shown(): Option<Message>
      reads this
    {
      match selectedMessage
      case None => None
      case Some(id) => if id == 0 then None else FindById(messages, id)
    }

    /** Typing in the search box replaces the query and keeps the selection. */
    method OnSearchChange(value: string)
      modifies this
      ensures searchQuery == value && selectedMessage == old(selectedMessage)
    {
      searchQuery := value;
    }

    /** Clicking the `k`-th listed message selects it and shows it. */
    method OnMessageClick(k: nat)
      requires Valid() && k < |Listed()|
      modifies this
      ensures searchQuery == old(searchQuery)
      ensures selectedMessage == Some(old(Listed())[k].id)
      ensures Shown() == Some(old(Listed())[k])
    {
      var m := Listed()[k];
      KeptMessageFoundById(messages, searchQuery, k);
      assert m in messages;
      selectedMessage := Some(m.id);
    }
  }
}
