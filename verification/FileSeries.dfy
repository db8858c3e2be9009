/** Files requested one after the other. */
module FileSeries {
  import opened AsduParams
  import opened Octets
  import opened FileTransfer
  import opened FileNet
  import opened FileTheorems
  import FileReceiver

  /** A store after files were written to it, in order. */
  function Filled(store: Files, files: seq<File>): Files {
    if files == [] then store
    else
      var f := files[|files| - 1];
      Filled(store, files[..|files| - 1])[(f.ioa, f.nof) := f.data]
  }

  lemma FilledSnoc(store: Files, files: seq<File>, f: File)
    ensures Filled(store, files + [f]) == Filled(store, files)[(f.ioa, f.nof) := f.data]
  {
    assert (files + [f])[..|files|] == files;
  }

  /** Whatever goes on between the two, the Receiver's store changes by what it delivers. */
  lemma StepFills(j: Job, s: Sys, c: Option<Bytes>, store: Files)
    requires s.rcv.store == Filled(store, s.delivered)
    ensures var t := Step(j.p, j.sectionSize, s, c); t.rcv.store == Filled(store, t.delivered)
  {
    hide RcvHandle, SndHandle;
    if s.up == [] && s.down != [] {
      var a := if Damages(s, c) then s.down[0].(body := Segment(s.down[0].body.nos, c.value)) else s.down[0];
      FileReceiver.DeliversExactlyWhen(j.p, s.rcv, a);
      var d := RcvHandle(j.p, s.rcv, a);
      if d.done.Some? {
        FilledSnoc(store, s.delivered, d.done.value);
      } else {
        assert s.delivered + [] == s.delivered;
      }
    }
  }

  lemma {:induction false} PlayFills(j: Job, s: Sys, adv: nat -> Option<Bytes>, n: nat, store: Files)
    requires s.rcv.store == Filled(store, s.delivered)
    ensures var t := Play(j, s, adv, 0, n); t.rcv.store == Filled(store, t.delivered)
  {
    hide Step;
    if n > 0 {
      PlayFills(j, s, adv, n - 1, store);
      PlayLast(j, s, adv, 0, n - 1);
      StepFills(j, Play(j, s, adv, 0, n - 1), adv(n - 1), store);
    }
  }

  function Undisturbed(k: nat): Option<Bytes> {
    None
  }

  /** The two ends after the files were requested in turn, and ns[i] ASDUs were delivered for the i-th. */
  function Transfers(js: seq<Job>, ns: seq<nat>, snd: Snd, rcv: Rcv): (Snd, Rcv)
    requires |ns| == |js|
  {
    if js == [] then (snd, rcv)
    else
      var (s, r) := Transfers(js[..|js| - 1], ns[..|js| - 1], snd, rcv);
      var t := Play(js[|js| - 1], Start(js[|js| - 1], s, r, 0), Undisturbed, 0, ns[|js| - 1]);
      (t.snd, t.rcv)
  }

  function FileOf(j: Job): File {
    File(j.ioa, j.nof, if (j.ioa, j.nof) in j.store then Data(j) else [])
  }

  function FilesOf(js: seq<Job>): (r: seq<File>)
    ensures |r| == |js|
  {
    seq(|js|, i requires 0 <= i < |js| => FileOf(js[i]))
  }

  /** One transfer leaves both ends as ready for the next as it found them. */
  lemma OneMore(j: Job, snd: Snd, rcv: Rcv) returns (n: nat)
    requires Ready(j, snd, rcv) && Deliverable(j)
    ensures var t := Play(j, Start(j, snd, rcv, 0), Undisturbed, 0, n);
            && t.snd.store == snd.store && !t.rcv.active && !t.rcv.called
            && t.rcv.store == rcv.store[(j.ioa, j.nof) := Data(j)]
  {
    n := TransferEnds(j, snd, rcv, Undisturbed, 0);
    PlayFills(j, Start(j, snd, rcv, 0), Undisturbed, n, rcv.store);
    FilledSnoc(rcv.store, [], File(j.ioa, j.nof, Data(j)));
    assert [] + [File(j.ioa, j.nof, Data(j))] == [File(j.ioa, j.nof, Data(j))];
  }

  /**
   * Any list of deliverable files of one store, the same file more than once if wished, requested in turn: all arrive,
   * each transfer after so many deliveries, and the Receiver's store is the one it had with the files written to it.
   */
  lemma {:induction false} AllArrive(js: seq<Job>, snd: Snd, rcv: Rcv) returns (ns: seq<nat>)
    requires !rcv.active && !rcv.called && forall i :: 0 <= i < |js| ==> Deliverable(js[i]) && js[i].store == snd.store
    ensures |ns| == |js|
    ensures
      var (s, r) := Transfers(js, ns, snd, rcv);
      !r.active && !r.called && s.store == snd.store && r.store == Filled(rcv.store, FilesOf(js))
  {
    hide Play, Start, Offerable;
    if js == [] {
      ns := [];
    } else {
      var front, j := js[..|js| - 1], js[|js| - 1];
      var ms := AllArrive(front, snd, rcv);
      var (s, r) := Transfers(front, ms, snd, rcv);
      var n := OneMore(j, s, r);
      ns := ms + [n];
      assert ns[..|js| - 1] == ms;
      assert FilesOf(js)[..|js| - 1] == FilesOf(front);
    }
  }
}
