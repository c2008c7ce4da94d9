/** Relative paths and the ascending order in which sorted maps and sets list them. */
module Paths {
  import opened Bytes

  /** A repo-relative path: an opaque byte string, ordered lexicographically. */
  datatype RelPath = RelPath(text: Bytes)

  ghost predicate IsFirstPath(p: RelPath, s: set<RelPath>) {
    p in s && forall q :: q in s ==> CompareBytes(p.text, q.text) != Greater
  }

  lemma {:induction false} FirstPathExists(s: set<RelPath>) returns (p: RelPath)
    requires s != {}
    ensures IsFirstPath(p, s)
    decreases |s|
  {
    p :| p in s;
    CompareEqual(p.text, p.text);
    if s != {p} {
      assert s - {p} != {};
      var q := FirstPathExists(s - {p});
      CompareReversed(p.text, q.text);
      if CompareBytes(q.text, p.text) == Less {
        p := q;
      } else {
        forall x | x in s
          ensures CompareBytes(p.text, x.text) != Greater
        {
          if x != p {
            CompareTransitive(p.text, q.text, x.text);
          }
        }
      }
    }
  }

  ghost function FirstPath(s: set<RelPath>): (p: RelPath)
    requires s != {}
    ensures IsFirstPath(p, s)
  {
    assert exists p :: IsFirstPath(p, s) by {
      var p := FirstPathExists(s);
    }
    var p :| IsFirstPath(p, s);
    p
  }

  lemma FirstPathIsUnique(p: RelPath, s: set<RelPath>)
    requires IsFirstPath(p, s)
    ensures FirstPath(s) == p
  {
    var q := FirstPath(s);
    CompareReversed(p.text, q.text);
    CompareEqual(p.text, q.text);
  }

  method FirstOf(s: set<RelPath>) returns (p: RelPath)
    requires s != {}
    ensures p == FirstPath(s)
  {
    p :| p in s;
    var todo := s - {p};
    CompareEqual(p.text, p.text);
    while todo != {}
      invariant todo <= s && p in s
      invariant forall q :: q in s - todo ==> CompareBytes(p.text, q.text) != Greater
      decreases todo
    {
      var q :| q in todo;
      CompareReversed(p.text, q.text);
      if CompareBytes(q.text, p.text) == Less {
        forall x | x in s - todo
          ensures CompareBytes(q.text, x.text) != Greater
        {
          CompareTransitive(q.text, p.text, x.text);
        }
        CompareEqual(q.text, q.text);
        p := q;
      }
      todo := todo - {q};
    }
    FirstPathIsUnique(p, s);
  }
}
