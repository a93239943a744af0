/** `find_smartstudy_path`: where the SmartStudy directory lives. */
module Locator {
  import opened Text

  /** `<device>/SmartStudy` on a mounted partition, or `./SmartStudy`. */
  datatype BaseDir = OnDevice(device: string) | Local

  /** A partition the search may use: any device not starting with "C:". */
  predicate Eligible(device: string) {
    !StartsWith(device, "C:")
  }

  /** The search over the partitions in the order `psutil.disk_partitions()`
      reports them; `canCreate(device)` says whether `os.makedirs` of
      `<device>/SmartStudy` succeeds there. The first eligible device where
      it succeeds wins; with none, the local fallback. */
  method FindSmartStudyPath(devices: seq<string>, canCreate: string -> bool) returns (base: BaseDir)
    ensures base.OnDevice? ==>
      exists i :: 0 <= i < |devices| && devices[i] == base.device && Eligible(devices[i]) && canCreate(devices[i])
        && forall j :: 0 <= j < i ==> !(Eligible(devices[j]) && canCreate(devices[j]))
    ensures base.Local? <==> forall i :: 0 <= i < |devices| ==> !(Eligible(devices[i]) && canCreate(devices[i]))
  {
    var i := 0;
    while i < |devices|
      invariant 0 <= i <= |devices|
      invariant forall j :: 0 <= j < i ==> !(Eligible(devices[j]) && canCreate(devices[j]))
    {
      if Eligible(devices[i]) && canCreate(devices[i]) {
        return OnDevice(devices[i]);
      }
      i := i + 1;
    }
    return Local;
  }

  /** Only a system drive (or no partition at all) gives the local folder,
      whatever `makedirs` would do. */
  method SystemDriveOnly() returns (base: BaseDir)
    ensures base == Local
  {
    base := FindSmartStudyPath(["C:\\"], d => true);
  }

  /** A drive that refuses the folder is skipped for the next one. */
  method SkipsUnwritableDrive() returns (base: BaseDir)
    ensures base == OnDevice("E:\\")
  {
    var devices := ["C:\\", "D:\\", "E:\\"];
    assert devices[2][..2] != "C:" by { assert devices[2][0] == 'E'; }
    assert Eligible(devices[2]) && devices[2] != "D:\\";
    assert !Eligible(devices[0]);
    base := FindSmartStudyPath(devices, d => d != "D:\\");
  }
}
