/** Where the parts of each statement's code sit, whatever those parts are. */
module Shapes {
  import opened Machine
  import opened Compile

  lemma LabelHere(p: Prog, l: int, pc: int)
    requires LabelsOk(p) && At(p, pc, [Label(l)])
    ensures l in p.labels && p.labels[l] == pc
  {
    AtIndex(p, pc, [Label(l)], 0);
  }

  ghost predicate Placed(p: Prog, l: int, pc: int) {
    At(p, pc, [Label(l)]) && l in p.labels && p.labels[l] == pc
  }

  lemma LabelSplit(p: Prog, pc: int, l: int, rest: seq<Item>)
    requires LabelsOk(p) && At(p, pc, [Label(l)] + rest)
    ensures Placed(p, l, pc) && At(p, pc + 1, rest)
  {
    AtSplit(p, pc, [Label(l)], rest);
    LabelHere(p, l, pc);
  }

  lemma GoSplit(p: Prog, pc: int, l: int, rest: seq<Item>)
    requires At(p, pc, Go(l) + rest)
    ensures At(p, pc, Go(l)) && At(p, pc + 1, rest)
  {
    AtSplit(p, pc, Go(l), rest);
  }

  lemma TestSplit(p: Prog, pc: int, w: When, l: int, rest: seq<Item>)
    requires At(p, pc, TestAndGo(w, l) + rest)
    ensures At(p, pc, TestAndGo(w, l)) && At(p, pc + 2, rest)
  {
    AtSplit(p, pc, TestAndGo(w, l), rest);
  }

  lemma Lengths(w: When, l: int)
    ensures |Go(l)| == 1 && |TestAndGo(w, l)| == 2
  {}

  lemma IfParts(p: Prog, pc: int, no: int, test: seq<Item>, body: seq<Item>)
    requires LabelsOk(p) && At(p, pc, IfShape(no, test, body))
    ensures At(p, pc, test) && At(p, pc + |test|, TestAndGo(IfZero, no)) && At(p, pc + |test| + 2, body)
    ensures Placed(p, no, pc + |test| + 2 + |body|)
    ensures |IfShape(no, test, body)| == |test| + |body| + 3
  {
    hide At, LabelsOk;
    var t2 := body + [Label(no)];
    AtSplit(p, pc, test, TestAndGo(IfZero, no) + t2);
    TestSplit(p, pc + |test|, IfZero, no, t2);
    AtSplit(p, pc + |test| + 2, body, [Label(no)]);
    LabelHere(p, no, pc + |test| + 2 + |body|);
  }

  lemma IfElseParts(p: Prog, pc: int, no: int, end: int, test: seq<Item>, yesBody: seq<Item>, noBody: seq<Item>)
    requires LabelsOk(p) && At(p, pc, IfElseShape(no, end, test, yesBody, noBody))
    ensures var p2 := pc + |test| + 2;
            var p3 := p2 + |yesBody| + 2;
            At(p, pc, test) && At(p, pc + |test|, TestAndGo(IfZero, no)) && At(p, p2, yesBody) &&
            At(p, p2 + |yesBody|, Go(end)) && Placed(p, no, p3 - 1) && At(p, p3, noBody) &&
            Placed(p, end, p3 + |noBody|)
    ensures |IfElseShape(no, end, test, yesBody, noBody)| == |test| + |yesBody| + |noBody| + 5
  {
    hide At, LabelsOk, Go, TestAndGo;
    Lengths(IfZero, no); Lengths(IfZero, end);
    var p2 := pc + |test| + 2;
    var p3 := p2 + |yesBody| + 2;
    var t5 := noBody + [Label(end)];
    var t4 := [Label(no)] + t5;
    var t3 := Go(end) + t4;
    var t2 := yesBody + t3;
    AtSplit(p, pc, test, TestAndGo(IfZero, no) + t2);
    TestSplit(p, pc + |test|, IfZero, no, t2);
    AtSplit(p, p2, yesBody, t3);
    GoSplit(p, p2 + |yesBody|, end, t4);
    LabelSplit(p, p3 - 1, no, t5);
    AtSplit(p, p3, noBody, [Label(end)]);
    LabelHere(p, end, p3 + |noBody|);
  }

  lemma WhileParts(p: Prog, pc: int, top: int, end: int, test: seq<Item>, body: seq<Item>)
    requires LabelsOk(p) && At(p, pc, WhileShape(top, end, test, body))
    ensures var pb := pc + 1 + |test| + 2;
            Placed(p, top, pc) && At(p, pc + 1, test) && At(p, pc + 1 + |test|, TestAndGo(IfZero, end)) &&
            At(p, pb, body) && At(p, pb + |body|, Go(top)) && Placed(p, end, pb + |body| + 1)
    ensures |WhileShape(top, end, test, body)| == |test| + |body| + 5
  {
    hide At, LabelsOk, Go, TestAndGo;
    Lengths(IfZero, end); Lengths(IfZero, top);
    var pb := pc + 1 + |test| + 2;
    var t3 := Go(top) + [Label(end)];
    var t2 := body + t3;
    var t1 := TestAndGo(IfZero, end) + t2;
    LabelSplit(p, pc, top, test + t1);
    AtSplit(p, pc + 1, test, t1);
    TestSplit(p, pc + 1 + |test|, IfZero, end, t2);
    AtSplit(p, pb, body, t3);
    GoSplit(p, pb + |body|, top, [Label(end)]);
    LabelHere(p, end, pb + |body| + 1);
  }

  lemma DoParts(p: Prog, pc: int, top: int, end: int, cont: int, body: seq<Item>, test: seq<Item>)
    requires LabelsOk(p) && At(p, pc, DoShape(top, end, cont, body, test))
    ensures var pl := pc + 1 + |body|;
            Placed(p, top, pc) && At(p, pc + 1, body) && Placed(p, cont, pl) && At(p, pl + 1, test) &&
            At(p, pl + 1 + |test|, TestAndGo(IfNonZero, top)) && Placed(p, end, pl + 1 + |test| + 2)
    ensures |DoShape(top, end, cont, body, test)| == |test| + |body| + 5
  {
    hide At, LabelsOk, TestAndGo;
    Lengths(IfNonZero, top);
    var pl := pc + 1 + |body|;
    var t3 := TestAndGo(IfNonZero, top) + [Label(end)];
    var t2 := test + t3;
    LabelSplit(p, pc, top, body + ([Label(cont)] + t2));
    AtSplit(p, pc + 1, body, [Label(cont)] + t2);
    LabelSplit(p, pl, cont, t2);
    AtSplit(p, pl + 1, test, t3);
    TestSplit(p, pl + 1 + |test|, IfNonZero, top, [Label(end)]);
    LabelHere(p, end, pl + 1 + |test| + 2);
  }

  /** The second half of a `for`, from its step label. */
  function ForRest(top: int, end: int, stepL: int, bodyL: int, next: seq<Item>, body: seq<Item>): seq<Item> {
    [Label(stepL)] + (next + (Go(top) + ([Label(bodyL)] + (body + (Go(stepL) + [Label(end)])))))
  }

  lemma ForRestParts(p: Prog, pc: int, top: int, end: int, stepL: int, bodyL: int, next: seq<Item>, body: seq<Item>)
    requires LabelsOk(p) && At(p, pc, ForRest(top, end, stepL, bodyL, next, body))
    ensures var p3 := pc + 1 + |next|;
            Placed(p, stepL, pc) && At(p, pc + 1, next) && At(p, p3, Go(top)) && Placed(p, bodyL, p3 + 1) &&
            At(p, p3 + 2, body) && At(p, p3 + 2 + |body|, Go(stepL)) && Placed(p, end, p3 + 2 + |body| + 1)
    ensures |ForRest(top, end, stepL, bodyL, next, body)| == |next| + |body| + 5
  {
    hide At, LabelsOk, Go;
    Lengths(IfZero, top); Lengths(IfZero, stepL);
    var p3 := pc + 1 + |next|;
    var t4 := Go(stepL) + [Label(end)];
    var t3 := body + t4;
    var t2 := [Label(bodyL)] + t3;
    var t1 := Go(top) + t2;
    LabelSplit(p, pc, stepL, next + t1);
    AtSplit(p, pc + 1, next, t1);
    GoSplit(p, p3, top, t2);
    LabelSplit(p, p3 + 1, bodyL, t3);
    AtSplit(p, p3 + 2, body, t4);
    GoSplit(p, p3 + 2 + |body|, stepL, [Label(end)]);
    LabelHere(p, end, p3 + 2 + |body| + 1);
  }

  lemma ForParts(p: Prog, pc: int, top: int, end: int, stepL: int, bodyL: int, test: seq<Item>, next: seq<Item>,
                 body: seq<Item>)
    requires LabelsOk(p) && At(p, pc, ForShape(top, end, stepL, bodyL, test, next, body))
    ensures var p2 := pc + 1 + |test| + 2;
            var p3 := p2 + 2 + |next|;
            Placed(p, top, pc) && At(p, pc + 1, test) && At(p, pc + 1 + |test|, TestAndGo(IfZero, end)) &&
            At(p, p2, Go(bodyL)) && Placed(p, stepL, p2 + 1) && At(p, p2 + 2, next) && At(p, p3, Go(top)) &&
            Placed(p, bodyL, p3 + 1) && At(p, p3 + 2, body) && At(p, p3 + 2 + |body|, Go(stepL)) &&
            Placed(p, end, p3 + 2 + |body| + 1)
    ensures |ForShape(top, end, stepL, bodyL, test, next, body)| == |test| + |next| + |body| + 9
  {
    hide At, LabelsOk, Go, TestAndGo;
    Lengths(IfZero, end); Lengths(IfZero, bodyL);
    var p2 := pc + 1 + |test| + 2;
    var rest := ForRest(top, end, stepL, bodyL, next, body);
    var t2 := Go(bodyL) + rest;
    var t1 := TestAndGo(IfZero, end) + t2;
    LabelSplit(p, pc, top, test + t1);
    AtSplit(p, pc + 1, test, t1);
    TestSplit(p, pc + 1 + |test|, IfZero, end, t2);
    GoSplit(p, p2, bodyL, rest);
    ForRestParts(p, p2 + 1, top, end, stepL, bodyL, next, body);
  }
}
