/**
 * The volume bookkeeping of `Slice3d` (core/Slice3d.cpp): the constructors
 * and `init`, which set the dimensions, the supernode step and the start
 * offsets; the ownership rule for the voxel buffer; reading one voxel; and
 * copying the voxels into one row of reals per slice.
 */
module Slice3dVolume {
  import Superpixel

  /** A voxel position, as the region constructor receives its corners. */
  datatype Node = Node(x: int, y: int, z: int)

  /** What the destructor releases: the supervoxel map and the voxel buffer. */
  datatype Released = Released(supervoxels: bool, rawData: bool)

  /** `supernode_step`: the requested step, but never more than the depth. */
  function ClampStep(vstep: int, depth: int): (r: int)
    ensures r <= depth && r <= vstep
    ensures r == vstep || r == depth
  {
    if vstep > depth then depth else vstep
  }

  /** A step that fits the depth is kept; a larger one becomes the depth. */
  lemma ClampStepCases(vstep: int, depth: int)
    ensures vstep <= depth ==> ClampStep(vstep, depth) == vstep
    ensures vstep > depth ==> ClampStep(vstep, depth) == depth
    ensures ClampStep(ClampStep(vstep, depth), depth) == ClampStep(vstep, depth)
  {
  }

  /** A volume and its voxel buffer. */
  class Slice3d {
    var width: int
    var height: int
    var depth: int
    var sliceSize: int
    var supernodeStep: int
    var nChannels: int
    var loadNeighbors: bool
    var inputDir: string
    var startX: int
    var startY: int
    var startZ: int
    var hasSupervoxels: bool
    var nbEdges: int
    var supernodeLabelsLoaded: bool
    var maxDegree: int
    var nLabels: int
    var includeOtherLabel: bool
    var rawData: array?<bv8>
    var deleteRawData: bool

    /**
     * The buffer holds `depth` slices of `width * height` voxels (the
     * products written as `RowStart`, see `Superpixel.RowStartIsProduct`).
     */
    predicate HoldsVolume()
      reads this
    {
      0 <= width && 0 <= height && 0 <= depth && sliceSize == Superpixel.RowStart(height, width) &&
      rawData != null && rawData.Length >= Superpixel.RowStart(depth, sliceSize)
    }

    /**
     * `init()`: no supervoxels, edges or labels yet, no buffer (which the
     * object will own), the start offsets at the origin. The dimensions,
     * channels and step are left as they are.
     */
    method Init()
      modifies this`hasSupervoxels, this`nbEdges, this`supernodeLabelsLoaded, this`maxDegree, this`nLabels
      modifies this`rawData, this`includeOtherLabel, this`deleteRawData, this`startX, this`startY, this`startZ
      ensures !hasSupervoxels && nbEdges == 0 && !supernodeLabelsLoaded && maxDegree == -1 && nLabels == 0
      ensures rawData == null && includeOtherLabel && deleteRawData
      ensures startX == 0 && startY == 0 && startZ == 0
    {
      hasSupervoxels := false;
      nbEdges := 0;
      supernodeLabelsLoaded := false;
      maxDegree := -1;
      nLabels := 0;
      rawData := null;
      includeOtherLabel := true;
      deleteRawData := true;
      startX := 0;
      startY := 0;
      startZ := 0;
    }

    /**
     * The constructor over a caller's buffer: the caller keeps ownership,
     * the dimensions are taken as given, the step is clamped to the depth.
     */
    constructor FromRawData(data: array?<bv8>, awidth: int, aheight: int, adepth: int, vstep: int,
                            anChannels: int, aLoadNeighbors: bool)
      ensures width == awidth && height == aheight && depth == adepth
      ensures sliceSize == awidth * aheight && supernodeStep == ClampStep(vstep, adepth)
      ensures rawData == data && !deleteRawData
      ensures nChannels == anChannels && loadNeighbors == aLoadNeighbors
      ensures startX == 0 && startY == 0 && startZ == 0 && nbEdges == 0 && nLabels == 0
    {
      width := awidth;
      height := aheight;
      depth := adepth;
      nChannels := anChannels;
      loadNeighbors := aLoadNeighbors;
      supernodeStep := if vstep > adepth then adepth else vstep;
      sliceSize := awidth * aheight;
      new;
      Init();
      deleteRawData := false;
      rawData := data;
    }

    /**
     * The constructor that reads a directory of images. `loadFromDir` is
     * not part of this model: the dimensions and the buffer it produces
     * are parameters. The object owns the buffer.
     */
    constructor FromDirectory(dir: string, vstep: int, aLoadNeighbors: bool,
                              loadedWidth: int, loadedHeight: int, loadedDepth: int, loaded: array?<bv8>)
      ensures width == loadedWidth && height == loadedHeight && depth == loadedDepth
      ensures sliceSize == loadedWidth * loadedHeight && supernodeStep == ClampStep(vstep, loadedDepth)
      ensures rawData == loaded && deleteRawData
      ensures nChannels == 1 && loadNeighbors == aLoadNeighbors && inputDir == dir
      ensures startX == 0 && startY == 0 && startZ == 0 && nbEdges == 0 && nLabels == 0
    {
      nChannels := 1;
      loadNeighbors := aLoadNeighbors;
      inputDir := dir;
      width, height, depth := loadedWidth, loadedHeight, loadedDepth;
      sliceSize := loadedWidth * loadedHeight;
      supernodeStep := if vstep > loadedDepth then loadedDepth else vstep;
      new;
      Init();
      rawData := loaded;
    }

    /**
     * The constructor that reads a directory of images of a given size;
     * `loaded` is the buffer `loadFromDir` fills. The object owns it.
     */
    constructor FromDirectoryWithSize(dir: string, awidth: int, aheight: int, adepth: int, vstep: int,
                                      aLoadNeighbors: bool, loaded: array?<bv8>)
      ensures width == awidth && height == aheight && depth == adepth
      ensures sliceSize == awidth * aheight && supernodeStep == ClampStep(vstep, adepth)
      ensures rawData == loaded && deleteRawData
      ensures nChannels == 1 && loadNeighbors == aLoadNeighbors && inputDir == dir
      ensures startX == 0 && startY == 0 && startZ == 0 && nbEdges == 0 && nLabels == 0
    {
      width := awidth;
      height := aheight;
      depth := adepth;
      nChannels := 1;
      loadNeighbors := aLoadNeighbors;
      inputDir := dir;
      sliceSize := awidth * aheight;
      supernodeStep := if vstep > adepth then adepth else vstep;
      new;
      Init();
      rawData := loaded;
    }

    /**
     * The constructor for the box from `start` to `end`: each dimension is
     * the extent along its axis and the start offsets are the box's corner;
     * `loaded` is the buffer `loadFromDir` fills. The object owns it.
     */
    constructor Region(dir: string, start: Node, end: Node, vstep: int, aLoadNeighbors: bool, loaded: array?<bv8>)
      ensures width == end.x - start.x && height == end.y - start.y && depth == end.z - start.z
      ensures startX == start.x && startY == start.y && startZ == start.z
      ensures sliceSize == width * height && supernodeStep == ClampStep(vstep, end.z - start.z)
      ensures rawData == loaded && deleteRawData
      ensures nChannels == 1 && loadNeighbors == aLoadNeighbors && inputDir == dir
    {
      width := end.x - start.x;
      height := end.y - start.y;
      depth := end.z - start.z;
      nChannels := 1;
      loadNeighbors := aLoadNeighbors;
      inputDir := dir;
      sliceSize := (end.x - start.x) * (end.y - start.y);
      supernodeStep := if vstep > end.z - start.z then end.z - start.z else vstep;
      new;
      Init();
      startX, startY, startZ := start.x, start.y, start.z;
      rawData := loaded;
    }

    /** The default constructor: only `init`. */
    constructor ()
      ensures rawData == null && deleteRawData && !hasSupervoxels
      ensures startX == 0 && startY == 0 && startZ == 0 && nbEdges == 0 && nLabels == 0
    {
      new;
      Init();
    }

    /**
     * The destructor: the supervoxel map is freed when there is one, and
     * the voxel buffer only when the object owns it and there is one.
     */
    method Release() returns (r: Released)
      ensures r.supervoxels <==> hasSupervoxels
      ensures r.rawData <==> deleteRawData && rawData != null
    {
      r := Released(hasSupervoxels, deleteRawData && rawData != null);
    }

    /** The buffer index of voxel `(x, y, z)`: `z*sliceSize + y*width + x`. */
    function VoxelIndex(x: int, y: int, z: int): (r: int)
      reads this
      requires HoldsVolume()
      requires 0 <= x < width && 0 <= y < height && 0 <= z < depth
      ensures 0 <= r < rawData.Length
      ensures r == Superpixel.RowStart(z, sliceSize) + Superpixel.RowStart(y, width) + x
    {
      Superpixel.RowStartIsProduct(z, sliceSize);
      Superpixel.RowStartIsProduct(y, width);
      Superpixel.IndexBound(x, y, width, height);
      Superpixel.IndexBound(Superpixel.RowStart(y, width) + x, z, sliceSize, depth);
      z * sliceSize + y * width + x
    }

    /** Distinct voxels have distinct buffer indices. */
    lemma VoxelIndexInjective(x: int, y: int, z: int, x2: int, y2: int, z2: int)
      requires HoldsVolume()
      requires 0 <= x < width && 0 <= y < height && 0 <= z < depth
      requires 0 <= x2 < width && 0 <= y2 < height && 0 <= z2 < depth
      requires VoxelIndex(x, y, z) == VoxelIndex(x2, y2, z2)
      ensures x == x2 && y == y2 && z == z2
    {
      Superpixel.IndexBound(x, y, width, height);
      Superpixel.IndexBound(x2, y2, width, height);
      if z < z2 {
        Superpixel.RowStartMonotone(z + 1, z2, sliceSize);
      } else if z2 < z {
        Superpixel.RowStartMonotone(z2 + 1, z, sliceSize);
      }
      assert z == z2;
      if y < y2 {
        Superpixel.RowStartMonotone(y + 1, y2, width);
      } else if y2 < y {
        Superpixel.RowStartMonotone(y2 + 1, y, width);
      }
    }

    /** `at(x, y, z)`: the voxel at `(x, y, z)`. */
    function At(x: int, y: int, z: int): (r: bv8)
      reads this, rawData
      requires HoldsVolume()
      requires 0 <= x < width && 0 <= y < height && 0 <= z < depth
      ensures r == rawData[VoxelIndex(x, y, z)]
    {
      var i := VoxelIndex(x, y, z);
      rawData[i]
    }

    /** Voxel `xy` of slice `z` as a real: `raw_data[z*sliceSize + xy]`. */
    function SliceVoxel(z: int, xy: int): (r: real)
      reads this, rawData
      requires HoldsVolume()
      requires 0 <= z < depth && 0 <= xy < sliceSize
      ensures Superpixel.RowStart(z, sliceSize) + xy < rawData.Length
      ensures z * sliceSize + xy == Superpixel.RowStart(z, sliceSize) + xy
    {
      Superpixel.IndexBound(xy, z, sliceSize, depth);
      Superpixel.RowStartIsProduct(z, sliceSize);
      rawData[Superpixel.RowStart(z, sliceSize) + xy] as int as real
    }

    /**
     * `raw2Double(ptr_data)`: `depth` rows of `sliceSize` reals, row `z`
     * holding slice `z` of the buffer in order, and the status 0.
     */
    method Raw2Double() returns (rows: seq<seq<real>>, status: int)
      requires HoldsVolume()
      ensures status == 0
      ensures |rows| == depth
      ensures forall z :: 0 <= z < depth ==> |rows[z]| == sliceSize
      ensures forall z, xy :: 0 <= z < depth && 0 <= xy < sliceSize ==> rows[z][xy] == SliceVoxel(z, xy)
    {
      rows := [];
      var i := 0;
      for z := 0 to depth
        invariant |rows| == z && i == Superpixel.RowStart(z, sliceSize)
        invariant forall z' :: 0 <= z' < z ==> |rows[z']| == sliceSize
        invariant forall z', xy :: 0 <= z' < z && 0 <= xy < sliceSize ==> rows[z'][xy] == SliceVoxel(z', xy)
      {
        var row: seq<real> := [];
        for xy := 0 to sliceSize
          invariant |row| == xy && i == Superpixel.RowStart(z, sliceSize) + xy
          invariant forall q :: 0 <= q < xy ==> row[q] == SliceVoxel(z, q)
        {
          Superpixel.IndexBound(xy, z, sliceSize, depth);
          row := row + [rawData[i] as int as real];
          i := i + 1;
        }
        rows := rows + [row];
      }
      status := 0;
    }

    /** `at` reads the same voxel that `raw2Double` puts in the row of its slice. */
    lemma AtMatchesRows(rows: seq<seq<real>>, x: int, y: int, z: int)
      requires HoldsVolume()
      requires 0 <= x < width && 0 <= y < height && 0 <= z < depth
      requires |rows| == depth && forall z' :: 0 <= z' < depth ==> |rows[z']| == sliceSize
      requires forall z', xy :: 0 <= z' < depth && 0 <= xy < sliceSize ==> rows[z'][xy] == SliceVoxel(z', xy)
      ensures 0 <= y * width + x < sliceSize
      ensures rows[z][y * width + x] == At(x, y, z) as int as real
    {
      Superpixel.IndexBound(x, y, width, height);
      Superpixel.RowStartIsProduct(y, width);
    }
  }
}
