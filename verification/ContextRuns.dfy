/**
 Whole runs over the contexts of a search tree: children clone the context of their parent, files are
 edited and read. The caches and patches refine, for every node and path, the text shown and the text stored; if
 all edits fit their bases, they refine a plain map from paths to texts.
 */
module ContextRuns {
  import opened Prelude
  import opened Text
  import opened HunkReplay
  import opened PatchRoundTrip
  import opened ContextFiles

  // ---------- runs on shown and stored texts ----------

  datatype Command =
    | CreateChild(node: nat)
    | Edit(node: nat, path: string, text: string)
    | Read(node: nat, path: string)

  /** For every node, the files that are not as the repository has them. */
  type Entries = seq<map<string, Entry>>

  function Lookup(repo: Repository, entries: map<string, Entry>, path: string): Entry {
    if path in entries then entries[path] else Entry(repo.Original(path), repo.Original(path))
  }

  /** A copy shows what is stored. */
  function Copied(entries: map<string, Entry>): map<string, Entry> {
    map p | p in entries :: Entry(entries[p].stored, entries[p].stored)
  }

  ghost function Step(repo: Repository, differ: Differ, entries: Entries, c: Command): Entries
    requires ValidDiffer(differ) && c.node < |entries|
  {
    match c
    case CreateChild(n) => entries + [Copied(entries[n])]
    case Edit(n, path, text) => entries[n := entries[n][path := EditedEntry(differ, repo.Original(path), text)]]
    case Read(_, _) => entries
  }

  /** The commands name nodes that exist. */
  ghost predicate Runnable(nodes: nat, commands: seq<Command>)
    decreases |commands|
  {
    commands == [] ||
    (commands[0].node < nodes && Runnable(if commands[0].CreateChild? then nodes + 1 else nodes, commands[1..]))
  }

  /** The texts that the reads of a run return, in order. */
  ghost function Outputs(repo: Repository, differ: Differ, entries: Entries, commands: seq<Command>): seq<string>
    requires ValidDiffer(differ) && Runnable(|entries|, commands)
    decreases |commands|
  {
    if commands == [] then [] else
      var c := commands[0];
      (if c.Read? then [Lookup(repo, entries[c.node], c.path).shown] else [])
      + Outputs(repo, differ, Step(repo, differ, entries, c), commands[1..])
  }

  ghost function Final(repo: Repository, differ: Differ, entries: Entries, commands: seq<Command>): Entries
    requires ValidDiffer(differ) && Runnable(|entries|, commands)
    decreases |commands|
  {
    if commands == [] then entries
    else Final(repo, differ, Step(repo, differ, entries, commands[0]), commands[1..])
  }

  // ---------- runs on plain texts ----------

  type Texts = seq<map<string, string>>

  function PlainLookup(repo: Repository, texts: map<string, string>, path: string): string {
    if path in texts then texts[path] else repo.Original(path)
  }

  function PlainStep(texts: Texts, c: Command): Texts
    requires c.node < |texts|
  {
    match c
    case CreateChild(n) => texts + [texts[n]]
    case Edit(n, path, text) => texts[n := texts[n][path := text]]
    case Read(_, _) => texts
  }

  ghost function PlainOutputs(repo: Repository, texts: Texts, commands: seq<Command>): seq<string>
    requires Runnable(|texts|, commands)
    decreases |commands|
  {
    if commands == [] then [] else
      var c := commands[0];
      (if c.Read? then [PlainLookup(repo, texts[c.node], c.path)] else [])
      + PlainOutputs(repo, PlainStep(texts, c), commands[1..])
  }

  /** Every edit fits the repository's text of its file. */
  ghost predicate AllFit(repo: Repository, differ: Differ, commands: seq<Command>) {
    forall k :: 0 <= k < |commands| && commands[k].Edit? ==>
      EditFits(differ, repo.Original(commands[k].path), commands[k].text)
  }

  /** What is shown and stored is the plain text. */
  ghost predicate Plain(repo: Repository, entries: Entries, texts: Texts) {
    && |entries| == |texts|
    && forall i, p {:trigger Lookup(repo, entries[i], p)} :: 0 <= i < |entries| ==>
         Lookup(repo, entries[i], p) == Entry(PlainLookup(repo, texts[i], p), PlainLookup(repo, texts[i], p))
  }

  lemma PlainKept(repo: Repository, differ: Differ, entries: Entries, texts: Texts, c: Command)
    requires ValidDiffer(differ) && c.node < |entries| && Plain(repo, entries, texts)
    requires c.Edit? ==> EditFits(differ, repo.Original(c.path), c.text)
    ensures Plain(repo, Step(repo, differ, entries, c), PlainStep(texts, c))
  {
    var (now, plain) := (Step(repo, differ, entries, c), PlainStep(texts, c));
    if c.Edit? {
      EditedEntryIff(differ, repo.Original(c.path), c.text);
    }
    forall i, p | 0 <= i < |now|
      ensures Lookup(repo, now[i], p) == Entry(PlainLookup(repo, plain[i], p), PlainLookup(repo, plain[i], p))
    {
      var from := if c.CreateChild? && i == |entries| then c.node else i;
      assert Lookup(repo, entries[from], p)
        == Entry(PlainLookup(repo, texts[from], p), PlainLookup(repo, texts[from], p));
    }
  }

  /** If all edits fit, a run returns what it does on plain texts. */
  lemma {:induction false} FittingRunIsPlain(repo: Repository, differ: Differ, entries: Entries, texts: Texts,
          commands: seq<Command>)
    requires ValidDiffer(differ) && Runnable(|entries|, commands) && AllFit(repo, differ, commands)
    requires Plain(repo, entries, texts)
    ensures Outputs(repo, differ, entries, commands) == PlainOutputs(repo, texts, commands)
    decreases |commands|
  {
    if commands != [] {
      var c := commands[0];
      PlainKept(repo, differ, entries, texts, c);
      assert c.Read? ==> Lookup(repo, entries[c.node], c.path).shown == PlainLookup(repo, texts[c.node], c.path);
      forall k | 0 <= k < |commands[1..]| && commands[1..][k].Edit?
        ensures EditFits(differ, repo.Original(commands[1..][k].path), commands[1..][k].text)
      {
        assert commands[1..][k] == commands[k + 1];
      }
      FittingRunIsPlain(repo, differ, Step(repo, differ, entries, c), PlainStep(texts, c), commands[1..]);
    }
  }

  // ---------- the contexts ----------

  class FileContext {
    const repo: Repository
    var files: map<string, ContextFile>

    constructor (repo: Repository)
      ensures this.repo == repo && files == map[]
    {
      this.repo, files := repo, map[];
    }

    ghost predicate Valid()
      reads this, files.Values
    {
      forall p <- files :: Owns(p, files[p]) && files[p].Valid()
    }

    /** A file belongs to one context and one path, so no object is shared. */
    ghost predicate Owns(path: string, f: ContextFile) {
      f.home == this && f.filePath == path && f.repo == repo
    }

    /** The text shown and the text stored at a path, in the context or not. */
    ghost function State(path: string): Entry
      reads this, files.Values
      requires Valid()
    {
      if path in files then files[path].State() else Entry(repo.Original(path), repo.Original(path))
    }

    method AddFile(path: string) returns (f: ContextFile)
      requires Valid()
      modifies this
      ensures Valid() && path in files && f == files[path]
      ensures files.Keys == old(files.Keys) + {path}
      ensures forall p <- old(files) :: files[p] == old(files[p])
      ensures path !in old(files) ==> fresh(f)
      ensures forall p :: State(p) == old(State(p))
    {
      if path !in files {
        var added := new ContextFile(repo, path, [], this);
        files := files[path := added];
      }
      f := files[path];
    }

    /** All files are made anew, from their paths and patches. */
    method CopyFiles(c: FileContext)
      requires Valid() && c != this && c.repo == repo && c.files == map[]
      modifies c
      ensures c.files.Keys == files.Keys && fresh(c.files.Values)
      ensures forall p <- c.files :: c.files[p].home == c && c.files[p].LoadedFrom(repo, p, files[p].patch)
    {
      var left := files.Keys;
      while left != {}
        invariant left <= files.Keys
        invariant c.files.Keys == files.Keys - left
        invariant forall p <- c.files :: fresh(c.files[p]) && c.files[p].home == c
        invariant forall p <- c.files :: c.files[p].LoadedFrom(repo, p, files[p].patch)
      {
        var path :| path in left;
        var copy := new ContextFile(repo, path, files[path].patch, c);
        c.files := c.files[path := copy];
        left := left - {path};
      }
    }

    /** Dump and load. */
    method Clone() returns (c: FileContext)
      requires Valid()
      ensures fresh(c) && fresh(c.files.Values) && c.repo == repo && c.Valid()
      ensures c.files.Keys == files.Keys
      ensures forall p :: c.State(p) == Entry(State(p).stored, State(p).stored)
      ensures forall p :: c.State(p).shown == State(p).shown <==> p in files ==> files[p].Coherent()
    {
      c := new FileContext(repo);
      CopyFiles(c);
    }
  }

  /** The contexts of all nodes, in the order the nodes were created. */
  class NodeContexts {
    const repo: Repository
    const differ: Differ
    var contexts: seq<FileContext>
    ghost var Repr: set<object>

    constructor (repo: Repository, differ: Differ)
      requires ValidDiffer(differ)
      ensures Valid() && fresh(Repr) && |contexts| == 1 && this.repo == repo && this.differ == differ
      ensures Refines([map[]])
    {
      this.repo, this.differ := repo, differ;
      var root := new FileContext(repo);
      contexts := [root];
      Repr := {this, root};
    }

    ghost predicate Valid()
      reads this, Repr
    {
      && this in Repr
      && ValidDiffer(differ)
      && (forall i, j :: 0 <= i < j < |contexts| ==> contexts[i] != contexts[j])
      && (forall i :: 0 <= i < |contexts| ==>
            && contexts[i] in Repr && contexts[i].files.Values <= Repr
            && contexts[i].repo == repo && contexts[i].Valid())
    }

    ghost function State(node: nat, path: string): Entry
      reads this, Repr
      requires Valid() && node < |contexts|
    {
      contexts[node].State(path)
    }

    /** Every node shows and stores the texts that the simple form has for it. */
    ghost predicate Refines(entries: Entries)
      reads this, Repr
      requires Valid()
    {
      && |entries| == |contexts|
      && forall i, p :: 0 <= i < |entries| ==> State(i, p) == Lookup(repo, entries[i], p)
    }

    /** A context that shares nothing with the others joins them. */
    method Attach(child: FileContext)
      requires Valid() && child.repo == repo && child.Valid()
      requires child !in Repr && child.files.Values !! Repr
      modifies this
      ensures Valid() && contexts == old(contexts) + [child] && Repr == old(Repr) + {child} + child.files.Values
      ensures forall i, p :: 0 <= i < old(|contexts|) ==> State(i, p) == old(State(i, p))
      ensures forall p :: State(|contexts| - 1, p) == old(child.State(p))
    {
      contexts, Repr := contexts + [child], Repr + {child} + child.files.Values;
      forall i | 0 <= i < old(|contexts|)
        ensures contexts[i] in Repr && contexts[i].files.Values <= Repr && contexts[i].Valid()
        ensures forall p :: contexts[i].State(p) == old(State(i, p))
      {
        assert contexts[i] == old(contexts[i]);
      }
    }

    method CreateChild(node: nat)
      requires Valid() && node < |contexts|
      modifies Repr
      ensures Valid() && fresh(Repr - old(Repr)) && |contexts| == old(|contexts|) + 1
      ensures forall i, p :: 0 <= i < |contexts| ==>
                State(i, p) == if i < old(|contexts|) then old(State(i, p))
                               else Entry(old(State(node, p)).stored, old(State(node, p)).stored)
    {
      var child := contexts[node].Clone();
      Attach(child);
    }

    method OpenFile(node: nat, path: string) returns (f: ContextFile)
      requires Valid() && node < |contexts|
      modifies Repr
      ensures Valid() && fresh(Repr - old(Repr)) && contexts == old(contexts)
      ensures path in contexts[node].files && f == contexts[node].files[path]
      ensures forall i, p :: 0 <= i < |contexts| ==> State(i, p) == old(State(i, p))
    {
      f := contexts[node].AddFile(path);
      Repr := Repr + {f};
      forall i | 0 <= i < |contexts|
        ensures contexts[i] in Repr && contexts[i].files.Values <= Repr && contexts[i].Valid()
        ensures forall p :: contexts[i].State(p) == old(contexts[i].State(p))
      {
        assert i != node ==> contexts[i] != contexts[node];
      }
    }

    /** An edit changes what one node shows for one path, and nothing else. */
    method ApplyTo(f: ContextFile, node: nat, path: string, text: string)
      requires Valid() && node < |contexts|
      requires path in contexts[node].files && f == contexts[node].files[path]
      modifies f
      ensures Valid()
      ensures forall i, p :: 0 <= i < |contexts| ==>
                State(i, p) == if i == node && p == path then EditedEntry(differ, repo.Original(path), text)
                               else old(State(i, p))
    {
      assert contexts[node].Owns(path, f);
      f.ApplyChanges(differ, text);
      forall i | 0 <= i < |contexts|
        ensures contexts[i].Valid()
        ensures forall p :: contexts[i].State(p) == if i == node && p == path
                  then EditedEntry(differ, repo.Original(path), text) else old(contexts[i].State(p))
      {
        forall p | p in contexts[i].files
          ensures contexts[i].files[p] == f ==> i == node && p == path
        {
          assert contexts[i].Owns(p, contexts[i].files[p]);
        }
      }
    }

    method Edit(node: nat, path: string, text: string)
      requires Valid() && node < |contexts|
      modifies Repr
      ensures Valid() && fresh(Repr - old(Repr)) && contexts == old(contexts)
      ensures forall i, p :: 0 <= i < |contexts| ==>
                State(i, p) == if i == node && p == path then EditedEntry(differ, repo.Original(path), text)
                               else old(State(i, p))
    {
      var f := OpenFile(node, path);
      ApplyTo(f, node, path, text);
    }

    method ReadFrom(f: ContextFile, node: nat, path: string) returns (text: string)
      requires Valid() && node < |contexts|
      requires path in contexts[node].files && f == contexts[node].files[path]
      modifies f
      ensures Valid() && text == old(State(node, path)).shown
      ensures forall i, p :: 0 <= i < |contexts| ==> State(i, p) == old(State(i, p))
    {
      assert contexts[node].Owns(path, f);
      var r := f.Content();
      text := r.value;
    }

    method Read(node: nat, path: string) returns (text: string)
      requires Valid() && node < |contexts|
      modifies Repr
      ensures Valid() && fresh(Repr - old(Repr)) && contexts == old(contexts)
      ensures text == old(State(node, path)).shown
      ensures forall i, p :: 0 <= i < |contexts| ==> State(i, p) == old(State(i, p))
    {
      var f := OpenFile(node, path);
      text := ReadFrom(f, node, path);
    }

    /** One command keeps the refinement. */
    method Execute(c: Command, ghost entries: Entries) returns (output: seq<string>)
      requires Valid() && Refines(entries) && c.node < |entries|
      modifies Repr
      ensures Valid() && fresh(Repr - old(Repr)) && Refines(Step(repo, differ, entries, c))
      ensures output == if c.Read? then [Lookup(repo, entries[c.node], c.path).shown] else []
    {
      output := [];
      match c
      case CreateChild(node) =>
        CreateChild(node);
      case Edit(node, path, text) =>
        Edit(node, path, text);
      case Read(node, path) =>
        var text := Read(node, path);
        output := [text];
    }

    /** Any run of commands returns the texts, and leaves the contexts, that the simple form has. */
    method Run(commands: seq<Command>, ghost entries: Entries) returns (outputs: seq<string>)
      requires Valid() && Refines(entries) && Runnable(|entries|, commands)
      modifies Repr
      ensures Valid() && fresh(Repr - old(Repr)) && Refines(Final(repo, differ, entries, commands))
      ensures outputs == Outputs(repo, differ, entries, commands)
      decreases |commands|
    {
      if commands == [] {
        return [];
      }
      var output := Execute(commands[0], entries);
      var rest := Run(commands[1..], Step(repo, differ, entries, commands[0]));
      outputs := output + rest;
    }
  }

  /** A run from the root in which every edit fits returns what it does on plain texts. */
  method RunFromRoot(repo: Repository, differ: Differ, commands: seq<Command>) returns (outputs: seq<string>)
    requires ValidDiffer(differ) && Runnable(1, commands)
    ensures outputs == Outputs(repo, differ, [map[]], commands)
    ensures AllFit(repo, differ, commands) ==> outputs == PlainOutputs(repo, [map[]], commands)
  {
    var nodes := new NodeContexts(repo, differ);
    outputs := nodes.Run(commands, [map[]]);
    if AllFit(repo, differ, commands) {
      FittingRunIsPlain(repo, differ, [map[]], [map[]], commands);
    }
  }

  /** An edit that only drops the final line break is shown by its node, and not by a child of that node. */
  method StaleCache(differ: Differ) returns (shown: string, cloned: string)
    requires ValidDiffer(differ)
    ensures shown == "a" && cloned == "a\n"
  {
    var repo := Repository(map["f" := "a\n"]);
    var context := new FileContext(repo);
    var f := context.AddFile("f");
    f.ApplyChanges(differ, "a");
    StaleEntry(differ);
    var copy := context.Clone();
    var r := f.Content();
    shown := r.value;
    assert copy.State("f") == Entry("a\n", "a\n");
    var g := copy.AddFile("f");
    r := g.Content();
    cloned := r.value;
  }

  lemma StaleEntry(differ: Differ)
    requires ValidDiffer(differ)
    ensures EditedEntry(differ, "a\n", "a") == Entry("a", "a\n")
  {
    SmallTexts();
    OneLine();
  }
}
