/** The state `useSessions` keeps and the callbacks that change it, each proved to be a step of
    `SessionPages`. */
module SessionsHook {
  import opened Options
  import opened SessionPages

  class Sessions {
    var question: Question
    var answer: Answer
    var loadingMore: bool
    /** The first-page reads out, and which of them still has its `current`. */
    var firsts: map<nat, Question>
    var current: nat
    /** The further pages out. */
    var mores: map<nat, More>
    var made: nat

    constructor (question: Question)
      ensures State() == Opened(question)
    {
      this.question := question;
      answer := Answer(question, Reading, None);
      loadingMore := false;
      firsts, current, mores, made := map[0 := question], 0, map[], 1;
    }

    function State(): Hook
      reads this
    {
      Hook(question, answer, loadingMore, firsts, current, mores, made)
    }

    /** The effect runs: its last run loses its `current`, and a read goes out. */
    method ReadFirst()
      modifies this
      ensures State() == Reread(old(State()))
    {
      firsts := firsts[made := question];
      current := made;
      made := made + 1;
    }

    method Ask(question: Question)
      requires question != this.question
      modifies this
      ensures State() == Step(old(State()), Asked(question))
    {
      this.question := question;
      ReadFirst();
    }

    method SittingHasEnded()
      modifies this
      ensures State() == Step(old(State()), SittingEnded)
    {
      ReadFirst();
    }

    method FirstPage(id: nat, page: Page)
      requires id in firsts
      modifies this
      ensures State() == Step(old(State()), FirstAnswered(id, page))
    {
      if id == current {
        answer := Answer(firsts[id], Rows(page.sessions), page.next);
      }
      firsts := firsts - {id};
    }

    method FirstProblem(id: nat, problem: string)
      requires id in firsts
      modifies this
      ensures State() == Step(old(State()), FirstFailed(id, problem))
    {
      if id == current {
        answer := Answer(firsts[id], Unread(problem), None);
      }
      firsts := firsts - {id};
    }

    method LoadMore()
      modifies this
      ensures State() == Step(old(State()), MorePressed)
    {
      var cursor := if answer.asked == question then answer.cursor else None;
      if cursor == None || loadingMore {
        return;
      }
      loadingMore := true;
      mores := mores[made := More(question, cursor.value)];
      made := made + 1;
    }

    method FurtherPage(id: nat, page: Page)
      requires id in mores
      modifies this
      ensures State() == Step(old(State()), MoreAnswered(id, page))
    {
      var asked := mores[id].asked;
      if answer.asked == asked && answer.read.Rows? {
        answer := Answer(asked, Rows(answer.read.rows + page.sessions), page.next);
      }
      mores := mores - {id};
      loadingMore := false;
    }

    method FurtherProblem(id: nat, problem: string)
      requires id in mores
      modifies this
      ensures State() == Step(old(State()), MoreFailed(id, problem))
    {
      answer := Answer(mores[id].asked, Unread(problem), None);
      mores := mores - {id};
      loadingMore := false;
    }
  }
}
