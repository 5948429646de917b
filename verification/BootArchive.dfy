/**
 The end of kernel start-up: programs are looked up by name in the boot archive, tasks are made of them,
 queued, and the first is entered.
 */
module BootArchive {
  import opened Prelude
  import opened SavedFrames
  import opened CpioFormat
  import opened CpioLookup
  import FP = FramePool
  import AS = AddressSpaces
  import TC = TaskCreation
  import EF = ElfFormat
  import KT = KernelTasks
  import BT = BootTasks

  // A file's characters as the numbers of its bytes.
  function ToBytes(data: string): (file: seq<nat>)
    ensures |file| == |data| && forall i :: 0 <= i < |data| ==> file[i] == data[i] as nat
  {
    seq(|data|, i requires 0 <= i < |data| => data[i] as nat)
  }

  // Every name can be looked up, and the program it stands for, if any, can be read as far as the loader reads.
  ghost predicate Bootable(es: seq<Entry>, names: seq<string>) {
    forall i :: 0 <= i < |names| ==>
      && NulFree(names[i]) && Passable(es, names[i])
      && (Has(es, names[i]) ==> EF.Bytes(Program(es, names[i])) && EF.Readable(Program(es, names[i])))
  }

  predicate Has(es: seq<Entry>, name: string) {
    First(es, name) < |es|
  }

  // The first entry with the name.
  function Program(es: seq<Entry>, name: string): seq<nat>
    requires Has(es, name)
  {
    ToBytes(es[First(es, name)].data)
  }

  // What cpio_lookup gives for the name.
  method ReadProgram(img: string, name: string, ghost es: seq<Entry>) returns (file: Option<seq<nat>>)
    requires Archive(img, 0, es) && NulFree(name) && Passable(es, name)
    ensures file == if Has(es, name) then Some(Program(es, name)) else None
  {
    FindIsFirst(img, 0, es, name);
    var r := Lookup(Some(img), name);
    if !r.File? {
      return None;
    }
    return Some(ToBytes(img[r.at..r.at + r.size]));
  }

  // The programs of all the names, unless one is missing.
  method ReadPrograms(img: string, names: seq<string>, ghost es: seq<Entry>) returns (files: Option<seq<seq<nat>>>)
    requires Archive(img, 0, es) && Bootable(es, names)
    ensures files.Some? <==> forall i :: 0 <= i < |names| ==> Has(es, names[i])
    ensures files.Some? ==> IsPrograms(files.value, es, names)
  {
    var found: seq<seq<nat>> := [];
    for i := 0 to |names|
      invariant |found| == i && forall j :: 0 <= j < i ==> Has(es, names[j]) && found[j] == Program(es, names[j])
    {
      var file := ReadProgram(img, names[i], es);
      if file.None? {
        return None;
      }
      found := found + [file.value];
    }
    return Some(found);
  }

  ghost predicate IsPrograms(files: seq<seq<nat>>, es: seq<Entry>, names: seq<string>) {
    |files| == |names| && forall i :: 0 <= i < |names| ==> Has(es, names[i]) && files[i] == Program(es, names[i])
  }

  // From the archive to the first program: if every name is in the archive and every task could be made, the kernel
  // runs by the protocol, with the first program at its entry point and every other waiting at its own.
  method BootFrom(vmm: AS.Vmm, img: string, names: seq<string>, boot: Stack, cpu: Cpu, cr3: nat, ticks: nat, ghost es: seq<Entry>)
    returns (kernel: Option<KT.Kernel>, ghost files: Option<seq<seq<nat>>>, ghost created: seq<Option<TC.Task>>,
             ghost tasks: seq<TC.Task>, ghost stocks: seq<FP.Stock>)
    requires vmm.Valid() && names != [] && Archive(img, 0, es) && Bootable(es, names)
    modifies vmm`mem, vmm`lab, vmm`data, vmm.pmm, vmm.pmm.bitmap
    ensures vmm.Valid() && (files.Some? <==> forall i :: 0 <= i < |names| ==> Has(es, names[i]))
    ensures files.None? ==> kernel.None? && vmm.Now() == old(vmm.Now())
    ensures files.Some? ==>
              && IsPrograms(files.value, es, names) && |created| == |names|
              && TC.AllReady(vmm.Now(), created, files.value) && TC.Accounts(stocks, created, files.value)
              && stocks[0] == old(vmm.Stock()) && stocks[|names|] == vmm.Stock()
              && (kernel.Some? <==> forall i :: 0 <= i < |created| ==> created[i].Some?)
    ensures kernel.Some? ==>
              && files.Some? && |tasks| == |created| && (forall i :: 0 <= i < |created| ==> created[i] == Some(tasks[i]))
              && kernel.value.Valid() && BT.Begun(kernel.value.Abs(), tasks, files.value, 0)
  {
    var found := ReadPrograms(img, names, es);
    if found.None? {
      return None, None, [], [], [];
    }
    files := found;
    var made;
    kernel, made, tasks, stocks := BT.Boot(vmm, found.value, boot, cpu, cr3, ticks);
    created := made;
  }
}
